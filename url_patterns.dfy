/**
 * URL-pattern inference: `url.split(str(id))` with exactly two parts gives a
 * `(prefix, suffix)` template such that `prefix + id + suffix` is the URL.
 * Python's `str.split` with a separator is modelled exactly: occurrences are
 * taken left to right and never overlap, and an empty separator raises.
 */
module UrlPatterns {
  import opened Wrappers
  import opened Records

  /** `sep` occurs in `s` starting at index `i`. */
  predicate Occurs(s: string, sep: string, i: int) {
    0 <= i && i + |sep| <= |s| && s[i..i + |sep|] == sep
  }

  predicate Contains(s: string, sep: string) {
    exists i :: 0 <= i <= |s| && Occurs(s, sep, i)
  }

  lemma OccursShift(s: string, sep: string)
    requires s != []
    ensures forall j :: Occurs(s[1..], sep, j) ==> Occurs(s, sep, j + 1)
    ensures forall j :: Occurs(s, sep, j) && j >= 1 ==> Occurs(s[1..], sep, j - 1)
  {
    forall j | Occurs(s[1..], sep, j) ensures Occurs(s, sep, j + 1) {
      assert s[1..][j..j + |sep|] == s[j + 1..j + 1 + |sep|];
    }
    forall j | Occurs(s, sep, j) && j >= 1 ensures Occurs(s[1..], sep, j - 1) {
      assert s[1..][j - 1..j - 1 + |sep|] == s[j..j + |sep|];
    }
  }

  /** `s.find(sep)`: the first index where `sep` occurs, if any. */
  function Find(s: string, sep: string): (r: Option<nat>)
    decreases |s|
    ensures r.Some? ==> Occurs(s, sep, r.value)
    ensures r.Some? ==> forall j :: 0 <= j < r.value ==> !Occurs(s, sep, j)
    ensures r.None? ==> !Contains(s, sep)
  {
    if |s| < |sep| then None
    else if s[..|sep|] == sep then Some(0)
    else
      OccursShift(s, sep);
      match Find(s[1..], sep)
      case None => None
      case Some(i) => Some(i + 1)
  }

  /** `sep.join(parts)`. */
  function Join(parts: seq<string>, sep: string): string {
    if parts == [] then []
    else if |parts| == 1 then parts[0]
    else parts[0] + sep + Join(parts[1..], sep)
  }

  lemma PrefixBeforeFirst(s: string, sep: string, i: nat)
    requires sep != [] && i <= |s|
    requires forall j :: 0 <= j < i ==> !Occurs(s, sep, j)
    ensures !Contains(s[..i], sep)
  {
    forall j | 0 <= j <= i && Occurs(s[..i], sep, j) ensures false {
      assert s[..i][j..j + |sep|] == s[j..j + |sep|];
      assert Occurs(s, sep, j) && j < i;
    }
  }

  /**
   * `s.split(sep)` for a non-empty `sep`: joining the parts gives `s` back,
   * and no part contains `sep`.
   */
  function Split(s: string, sep: string): (r: seq<string>)
    requires sep != []
    decreases |s|
    ensures |r| >= 1
    ensures Join(r, sep) == s
    ensures forall k :: 0 <= k < |r| ==> !Contains(r[k], sep)
    ensures |r| == 1 <==> Find(s, sep).None?
    ensures |r| > 1 ==> Find(s, sep) == Some(|r[0]|)
  {
    match Find(s, sep)
    case None => [s]
    case Some(i) =>
      PrefixBeforeFirst(s, sep, i);
      var rest := Split(s[i + |sep|..], sep);
      var r := [s[..i]] + rest;
      assert s == s[..i] + sep + s[i + |sep|..];
      assert r[1..] == rest && r[0] == s[..i] && |r[0]| == i;
      assert Join(r, sep) == r[0] + sep + Join(rest, sep);
      assert forall k :: 0 < k < |r| ==> r[k] == rest[k - 1];
      r
  }

  /**
   * Every cut is at the first occurrence in what is left: each part but the
   * last ends where the separator first occurs in the rest of the string.
   */
  lemma {:induction false} SplitCutsAtFirstOccurrences(s: string, sep: string)
    requires sep != []
    decreases |s|
    ensures forall k :: 0 <= k < |Split(s, sep)| - 1 ==>
              Find(Join(Split(s, sep)[k..], sep), sep) == Some(|Split(s, sep)[k]|)
  {
    var r := Split(s, sep);
    if |r| > 1 {
      var i := Find(s, sep).value;
      var rest := Split(s[i + |sep|..], sep);
      SplitCutsAtFirstOccurrences(s[i + |sep|..], sep);
      assert r == [s[..i]] + rest;
      assert Join(r[0..], sep) == s by {
        assert r[0..] == r;
      }
      forall k | 1 <= k < |r| - 1 ensures Find(Join(r[k..], sep), sep) == Some(|r[k]|) {
        assert r[k..] == rest[k - 1..] && r[k] == rest[k - 1];
        assert Find(Join(rest[k - 1..], sep), sep) == Some(|rest[k - 1]|);
      }
    }
  }

  /** A learned template: `url_patterns[namespace] == [prefix, suffix]`. */
  datatype Pattern = Pattern(prefix: string, suffix: string)

  /** The URL a template gives for an identifier (main.py:97). */
  function Rebuild(p: Pattern, id: string): string {
    p.prefix + id + p.suffix
  }

  /** The outcome of `len(url.split(id)) == 2` for one identifier. */
  datatype Inference = Inferred(pattern: Pattern) | NoPattern | EmptySeparator

  /**
   * Inference from one identifier and one observed URL.  An empty
   * identifier makes `split` raise `ValueError`.
   */
  function Infer(id: string, url: string): (r: Inference)
    ensures r == EmptySeparator <==> id == []
    ensures r.Inferred? ==> Rebuild(r.pattern, id) == url
  {
    if id == [] then EmptySeparator
    else
      var parts := Split(url, id);
      if |parts| == 2 then
        assert Join(parts, id) == parts[0] + id + parts[1];
        Inferred(Pattern(parts[0], parts[1]))
      else NoPattern
  }

  /**
   * Inference yields `(a, b)` exactly when `url` is `a + id + b`, the first
   * occurrence of `id` in `url` starts right after `a`, and `b` does not
   * contain `id`: one occurrence once occurrences are taken left to right
   * without overlap.
   */
  lemma InferIff(id: string, url: string, a: string, b: string)
    ensures Infer(id, url) == Inferred(Pattern(a, b)) <==>
              && id != []
              && url == a + id + b
              && (forall j :: 0 <= j < |a| ==> !Occurs(url, id, j))
              && !Contains(b, id)
  {
    if Infer(id, url) == Inferred(Pattern(a, b)) {
      var i := Find(url, id).value;
      var rest := Split(url[i + |id|..], id);
      assert Split(url, id) == [url[..i]] + rest;
      assert a == url[..i] && rest == [b];
    }
    if && id != []
       && url == a + id + b
       && (forall j :: 0 <= j < |a| ==> !Occurs(url, id, j))
       && !Contains(b, id)
    {
      assert url[|a|..|a| + |id|] == id;
      assert Occurs(url, id, |a|);
      assert Find(url, id) == Some(|a|);
      assert url[|a| + |id|..] == b;
      assert Find(b, id) == None;
      assert Split(b, id) == [b];
      assert Split(url, id) == [a, b];
    }
  }

  /** An identifier that occurs exactly once (overlaps counted) always yields a pattern. */
  lemma UniqueOccurrenceInfers(id: string, url: string, i: nat)
    requires id != [] && Occurs(url, id, i)
    requires forall j :: Occurs(url, id, j) ==> j == i
    ensures Infer(id, url).Inferred?
  {
    var a, b := url[..i], url[i + |id|..];
    assert url == a + id + b;
    forall j | Occurs(b, id, j) ensures false {
      assert b[j..j + |id|] == url[i + |id| + j..i + |id| + j + |id|];
      assert Occurs(url, id, i + |id| + j);
    }
    InferIff(id, url, a, b);
  }

  /**
   * The converse fails: "aa" occurs twice in "aaa" (at 0 and 1), yet
   * `"aaa".split("aa")` is `["", "a"]`, so a pattern is learned.
   */
  lemma OverlappingOccurrencesStillInfer()
    ensures Occurs("aaa", "aa", 0) && Occurs("aaa", "aa", 1)
    ensures Infer("aa", "aaa") == Inferred(Pattern("", "a"))
  {
    assert "aaa"[0..2] == "aa" && "aaa"[1..3] == "aa";
    InferIff("aa", "aaa", "", "a");
    assert "aaa" == "" + "aa" + "a";
    assert !Contains("a", "aa");
  }

  /** An identifier is tried unless it is a DOI or, in main's loops, its namespace is already known. */
  predicate Tried(id: ExternalId, known: set<string>, skipKnown: bool) {
    id.namespace != "DOI" && !(skipKnown && id.namespace in known)
  }

  /**
   * What the `for key, externalId in externalIds.items()` loop ends with:
   * the first tried identifier that yields a pattern (then `break`), nothing,
   * or the `ValueError` of an empty identifier reached before any success.
   */
  datatype Learning = Learned(at: nat, pattern: Pattern) | NothingLearned | Raised(at: nat)

  /** The loop's outcome from position `from` on. */
  function Scan(ids: seq<ExternalId>, url: string, known: set<string>, skipKnown: bool, from: nat): (r: Learning)
    requires from <= |ids|
    decreases |ids| - from
    ensures r.Learned? ==> from <= r.at < |ids| && Tried(ids[r.at], known, skipKnown)
    ensures r.Learned? ==> Infer(ids[r.at].value, url) == Inferred(r.pattern)
    ensures r.Learned? ==> NoPatternBetween(ids, url, known, skipKnown, from, r.at)
    ensures r.NothingLearned? ==> NoPatternBetween(ids, url, known, skipKnown, from, |ids|)
    ensures r.Raised? ==> from <= r.at < |ids| && Tried(ids[r.at], known, skipKnown) && ids[r.at].value == []
    ensures r.Raised? ==> NoPatternBetween(ids, url, known, skipKnown, from, r.at)
  {
    if from == |ids| then NothingLearned
    else if !Tried(ids[from], known, skipKnown) then Scan(ids, url, known, skipKnown, from + 1)
    else match Infer(ids[from].value, url)
      case Inferred(p) => Learned(from, p)
      case NoPattern =>
        var rest := Scan(ids, url, known, skipKnown, from + 1);
        assert Infer(ids[from].value, url) == NoPattern;
        rest
      case EmptySeparator => Raised(from)
  }

  /** No identifier tried in `ids[from..to]` yields a pattern. */
  predicate NoPatternBetween(ids: seq<ExternalId>, url: string, known: set<string>, skipKnown: bool, from: nat, to: nat)
    requires to <= |ids|
  {
    forall j :: from <= j < to && Tried(ids[j], known, skipKnown) ==> Infer(ids[j].value, url) == NoPattern
  }

  /**
   * The pattern table after the loop runs on a paper, or `None` when the
   * loop raises.  Only a paper with a string open-access URL runs the loop;
   * a missing or null `externalIds` then raises at `.items()`.
   */
  function LearnFrom(patterns: map<string, Pattern>, p: Paper, skipKnown: bool): (r: Option<map<string, Pattern>>)
    ensures p.openAccessUrl.None? ==> r == Some(patterns)
    ensures p.openAccessUrl.Some? && p.externalIds.None? ==> r.None?
    ensures r.None? ==> p.openAccessUrl.Some?
    ensures r.Some? ==> patterns.Keys <= r.value.Keys
    ensures p.openAccessUrl.Some? && p.externalIds.Some? ==>
              var l := Scan(p.externalIds.value, p.openAccessUrl.value, patterns.Keys, skipKnown, 0);
              && (r.None? <==> l.Raised?)
              && (l.Learned? ==> r == Some(patterns[p.externalIds.value[l.at].namespace := l.pattern]))
              && (l.NothingLearned? ==> r == Some(patterns))
  {
    match p.openAccessUrl
    case None => Some(patterns)
    case Some(url) =>
      match p.externalIds
      case None => None
      case Some(ids) =>
        match Scan(ids, url, patterns.Keys, skipKnown, 0)
        case Learned(at, pat) => Some(patterns[ids[at].namespace := pat])
        case NothingLearned => Some(patterns)
        case Raised(_) => None
  }

  /** Namespace `n` gained or changed its pattern between `before` and `after`. */
  predicate ChangedAt(before: map<string, Pattern>, after: map<string, Pattern>, n: string) {
    n in after && (n !in before || after[n] != before[n])
  }

  /**
   * One paper teaches at most one namespace, never `DOI`, never removes a
   * pattern, and whatever it teaches rebuilds the paper's own URL from its
   * identifier in that namespace.  With `skipKnown` (main's loops) a known
   * namespace is never overwritten.
   */
  lemma LearnFromChanges(patterns: map<string, Pattern>, p: Paper, skipKnown: bool)
    requires LearnFrom(patterns, p, skipKnown).Some?
    ensures var after := LearnFrom(patterns, p, skipKnown).value;
      && patterns.Keys <= after.Keys
      && !ChangedAt(patterns, after, "DOI")
      && (forall n1, n2 :: ChangedAt(patterns, after, n1) && ChangedAt(patterns, after, n2) ==> n1 == n2)
      && (skipKnown ==> forall n :: n in patterns ==> after[n] == patterns[n])
      && (forall n :: ChangedAt(patterns, after, n) ==>
            && p.openAccessUrl.Some? && p.externalIds.Some?
            && exists k :: 0 <= k < |p.externalIds.value|
                 && p.externalIds.value[k].namespace == n
                 && Rebuild(after[n], p.externalIds.value[k].value) == p.openAccessUrl.value)
  {
    var after := LearnFrom(patterns, p, skipKnown).value;
    if p.openAccessUrl.Some? {
      var ids := p.externalIds.value;
      var url := p.openAccessUrl.value;
      var l := Scan(ids, url, patterns.Keys, skipKnown, 0);
      if l.Learned? {
        var n := ids[l.at].namespace;
        assert after == patterns[n := l.pattern];
        forall m | ChangedAt(patterns, after, m) ensures m == n {
        }
        assert Rebuild(after[n], ids[l.at].value) == url;
      }
    }
  }
}
