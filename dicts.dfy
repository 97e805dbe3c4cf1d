/**
 * Python's `dict` with string keys: a finite map plus the insertion order
 * in which `items()` and `values()` enumerate it.
 */
module Dicts {
  import Seqs

  datatype Dict<V> = Dict(order: seq<string>, entries: map<string, V>)

  /** `order` lists every key exactly once. */
  ghost predicate Wf<V>(d: Dict<V>) {
    Distinct(d.order) && forall k :: k in d.entries <==> k in d.order
  }

  /** No key is listed twice: the first is not among the rest, and so on down the list. */
  ghost predicate Distinct(s: seq<string>)
    decreases |s|
  {
    s == [] || (s[0] !in s[1..] && Distinct(s[1..]))
  }

  /** `Distinct` is pairwise distinctness. */
  lemma {:induction false} DistinctIff(s: seq<string>)
    decreases |s|
    ensures Distinct(s) <==> forall i, j :: 0 <= i < j < |s| ==> s[i] != s[j]
  {
    if s != [] {
      DistinctIff(s[1..]);
      if Distinct(s) {
        forall i, j | 0 <= i < j < |s| ensures s[i] != s[j] {
          assert s[j] == s[1..][j - 1];
          if i > 0 {
            assert s[i] == s[1..][i - 1];
          }
        }
      }
      if forall i, j :: 0 <= i < j < |s| ==> s[i] != s[j] {
        forall i, j | 0 <= i < j < |s[1..]| ensures s[1..][i] != s[1..][j] {
          assert s[1..][i] == s[i + 1] && s[1..][j] == s[j + 1];
        }
        forall j | 0 <= j < |s[1..]| ensures s[1..][j] != s[0] {
          assert s[1..][j] == s[j + 1];
        }
      }
    }
  }

  /** A key not yet listed may be appended. */
  lemma {:induction false} DistinctAppend(s: seq<string>, k: string)
    requires Distinct(s) && k !in s
    decreases |s|
    ensures Distinct(s + [k])
  {
    if s != [] {
      assert (s + [k])[1..] == s[1..] + [k];
      DistinctAppend(s[1..], k);
    }
  }

  /** `{}`. */
  function Empty<V>(): (d: Dict<V>)
    ensures Wf(d) && d.entries == map[]
  {
    Dict([], map[])
  }

  /** `d[k] = v`: a new key goes to the end, an existing key keeps its place. */
  function Set<V>(d: Dict<V>, k: string, v: V): (r: Dict<V>)
    requires Wf(d)
    ensures Wf(r)
    ensures r.entries == d.entries[k := v]
    ensures r.order == if k in d.entries then d.order else d.order + [k]
  {
    if k in d.entries then Dict(d.order, d.entries[k := v])
    else
      DistinctAppend(d.order, k);
      Dict(d.order + [k], d.entries[k := v])
  }

  /** `del d[k]`: the other keys keep their relative order. */
  function Del<V>(d: Dict<V>, k: string): (r: Dict<V>)
    requires Wf(d) && k in d.entries
    ensures Wf(r)
    ensures r.entries == d.entries - {k}
    ensures Seqs.IsSubsequence(r.order, d.order)
  {
    var order := Seqs.Filter(d.order, x => x != k);
    DelKeepsDistinct(d.order, k);
    Dict(order, d.entries - {k})
  }

  lemma {:induction false} DelKeepsDistinct(s: seq<string>, k: string)
    requires Distinct(s)
    decreases |s|
    ensures Distinct(Seqs.Filter(s, x => x != k))
  {
    if s != [] {
      DelKeepsDistinct(s[1..], k);
      var rest := Seqs.Filter(s[1..], x => x != k);
      if s[0] != k {
        assert ([s[0]] + rest)[1..] == rest;
      }
    }
  }

  /** `list(d.items())`. */
  function Items<V>(d: Dict<V>): (r: seq<(string, V)>)
    requires Wf(d)
    ensures |r| == |d.order|
    ensures forall i :: 0 <= i < |r| ==> r[i].0 == d.order[i] && r[i].1 == d.entries[d.order[i]]
  {
    seq(|d.order|, i requires 0 <= i < |d.order| => (d.order[i], d.entries[d.order[i]]))
  }

  /** `list(d.values())`. */
  function Values<V>(d: Dict<V>): (r: seq<V>)
    requires Wf(d)
    ensures |r| == |d.order|
    ensures forall i :: 0 <= i < |r| ==> r[i] == d.entries[d.order[i]]
  {
    seq(|d.order|, i requires 0 <= i < |d.order| => d.entries[d.order[i]])
  }
}
