/**
 * PDF acquisition (`download_func`, main.py:90-117, and the download phase
 * of `main`, main.py:185-199).  The transport (`wget`, with the `tsocks`
 * retry when a proxy is asked for) is one oracle per attempt; the download
 * directory is the set of file names present in it.
 */
module Acquisition {
  import opened Wrappers
  import opened Records
  import Seqs
  import Dicts
  import opened UrlPatterns

  /** One entry of the `urls` list: the file-name tag and the URL. */
  datatype Candidate = Candidate(tag: string, url: string)

  /** What one transport attempt did: fetched the file, or failed, possibly leaving a partial file. */
  datatype Attempt = Fetched | Failed(leftover: bool)

  /** The transport, given the URL and the output file name (`-O`). */
  type Transport = (string, string) -> Attempt

  /** The canonical file name of an entry, `f"{paper_key}.pdf"` inside the download directory. */
  function PdfPath(key: string): string {
    key + ".pdf"
  }

  /** The identifiers whose namespace has a pattern, in `externalIds` order. */
  function KnownIds(ids: seq<ExternalId>, patterns: map<string, Pattern>): (r: seq<ExternalId>)
    ensures |r| <= |ids| && Seqs.IsSubsequence(r, ids)
    ensures forall id :: id in r <==> id in ids && id.namespace in patterns
    ensures forall j :: 0 <= j < |r| ==> r[j] in ids && r[j].namespace in patterns
  {
    var r := Seqs.Filter(ids, (id: ExternalId) => id.namespace in patterns);
    assert forall j :: 0 <= j < |r| ==> r[j] in r;
    r
  }

  /** The generator of main.py:97. */
  function IdCandidates(ids: seq<ExternalId>, patterns: map<string, Pattern>): (r: seq<Candidate>)
    ensures |r| <= |ids|
  {
    if ids == [] then []
    else if ids[0].namespace in patterns then
      [Candidate("_" + ids[0].namespace, Rebuild(patterns[ids[0].namespace], ids[0].value))]
      + IdCandidates(ids[1..], patterns)
    else IdCandidates(ids[1..], patterns)
  }

  /** The j-th identifier candidate comes from the j-th identifier whose namespace has a pattern. */
  lemma {:induction false} IdCandidatesFollowKnownIds(ids: seq<ExternalId>, patterns: map<string, Pattern>)
    ensures var r := IdCandidates(ids, patterns); var known := KnownIds(ids, patterns);
      && |r| == |known|
      && forall j :: 0 <= j < |r| ==>
           r[j] == Candidate("_" + known[j].namespace, Rebuild(patterns[known[j].namespace], known[j].value))
  {
    if ids != [] {
      IdCandidatesFollowKnownIds(ids[1..], patterns);
      var r, known := IdCandidates(ids, patterns), KnownIds(ids, patterns);
      var tail, rest := IdCandidates(ids[1..], patterns), KnownIds(ids[1..], patterns);
      if ids[0].namespace in patterns {
        assert known == [ids[0]] + rest;
        assert r == [Candidate("_" + ids[0].namespace, Rebuild(patterns[ids[0].namespace], ids[0].value))] + tail;
        forall j | 0 < j < |r|
          ensures r[j] == Candidate("_" + known[j].namespace, Rebuild(patterns[known[j].namespace], known[j].value))
        {
          assert r[j] == tail[j - 1] && known[j] == rest[j - 1];
        }
      } else {
        assert known == rest && r == tail;
      }
    }
  }

  /**
   * The `urls` list of main.py:93-97: the paper's own URL, untagged, comes
   * first when it is present; no URL and no identifiers give no candidate.
   */
  function Candidates(p: Paper, patterns: map<string, Pattern>): (r: seq<Candidate>)
    ensures p.openAccessUrl.Some? ==> |r| >= 1 && r[0] == Candidate("", p.openAccessUrl.value)
    ensures p.openAccessUrl.None? && p.externalIds.None? ==> r == []
    ensures p.externalIds.None? ==> |r| <= 1
  {
    (match p.openAccessUrl
     case Some(url) => [Candidate("", url)]
     case None => [])
    + (match p.externalIds
       case Some(ids) => IdCandidates(ids, patterns)
       case None => [])
  }

  function Own(p: Paper): nat {
    if p.openAccessUrl.Some? then 1 else 0
  }

  /**
   * The paper's own URL comes first, untagged, and only if it is a string;
   * then one candidate per identifier with a known namespace, in
   * `externalIds` order, tagged `"_" + namespace` and rebuilt from the
   * namespace's pattern.  At most `1 + |externalIds|` candidates.
   */
  lemma CandidatesShape(p: Paper, patterns: map<string, Pattern>)
    ensures var r := Candidates(p, patterns);
      && |r| <= 1 + (if p.externalIds.Some? then |p.externalIds.value| else 0)
      && (p.openAccessUrl.Some? ==> r[0] == Candidate("", p.openAccessUrl.value))
      && (p.externalIds.None? ==> |r| == Own(p))
      && (p.externalIds.Some? ==>
            var known := KnownIds(p.externalIds.value, patterns);
            && |r| == Own(p) + |known|
            && forall j :: 0 <= j < |known| ==>
                 r[Own(p) + j] == Candidate("_" + known[j].namespace, Rebuild(patterns[known[j].namespace], known[j].value)))
  {
    var own: seq<Candidate> := if p.openAccessUrl.Some? then [Candidate("", p.openAccessUrl.value)] else [];
    var r := Candidates(p, patterns);
    assert |own| == Own(p);
    if p.externalIds.Some? {
      var ids := p.externalIds.value;
      var tail := IdCandidates(ids, patterns);
      assert r == own + tail;
      IdCandidatesFollowKnownIds(ids, patterns);
      var known := KnownIds(ids, patterns);
      forall j | 0 <= j < |known|
        ensures r[Own(p) + j] == Candidate("_" + known[j].namespace, Rebuild(patterns[known[j].namespace], known[j].value))
      {
        assert r[Own(p) + j] == tail[j];
      }
    } else {
      assert r == own;
    }
  }

  /** Distinct namespaces, as the keys of a dict are. */
  ghost predicate DistinctNamespaces(ids: seq<ExternalId>) {
    forall i, j :: 0 <= i < j < |ids| ==> ids[i].namespace != ids[j].namespace
  }

  /** No two candidates share a tag, so no two attempts share an output file. */
  lemma {:induction false} TagsDistinct(ids: seq<ExternalId>, patterns: map<string, Pattern>)
    requires DistinctNamespaces(ids)
    ensures forall i, j :: 0 <= i < j < |IdCandidates(ids, patterns)| ==>
              IdCandidates(ids, patterns)[i].tag != IdCandidates(ids, patterns)[j].tag
              && IdCandidates(ids, patterns)[i].tag != ""
  {
    var r := IdCandidates(ids, patterns);
    if ids != [] {
      assert DistinctNamespaces(ids[1..]) by {
        forall i, j | 0 <= i < j < |ids[1..]| ensures ids[1..][i].namespace != ids[1..][j].namespace {
          assert ids[1..][i] == ids[i + 1] && ids[1..][j] == ids[j + 1];
        }
      }
      TagsDistinct(ids[1..], patterns);
      var rest := IdCandidates(ids[1..], patterns);
      if ids[0].namespace in patterns {
        var first := Candidate("_" + ids[0].namespace, Rebuild(patterns[ids[0].namespace], ids[0].value));
        assert r == [first] + rest;
        FirstTagFresh(ids, patterns);
        forall i, j | 0 <= i < j < |r| ensures r[i].tag != r[j].tag && r[i].tag != "" {
          assert r[j] == rest[j - 1];
          if i > 0 {
            assert r[i] == rest[i - 1];
          } else {
            assert r[0] == first && first.tag[0] == '_';
          }
        }
      }
    }
  }

  /** The first identifier's tag differs from every tag the remaining identifiers produce. */
  lemma FirstTagFresh(ids: seq<ExternalId>, patterns: map<string, Pattern>)
    requires ids != [] && DistinctNamespaces(ids)
    ensures forall j :: 0 <= j < |IdCandidates(ids[1..], patterns)| ==>
              IdCandidates(ids[1..], patterns)[j].tag != "_" + ids[0].namespace
  {
    var rest := IdCandidates(ids[1..], patterns);
    IdCandidatesFollowKnownIds(ids[1..], patterns);
    var known := KnownIds(ids[1..], patterns);
    forall j | 0 <= j < |rest| ensures rest[j].tag != "_" + ids[0].namespace {
      var m :| 0 <= m < |ids[1..]| && ids[1..][m] == known[j];
      assert ids[m + 1].namespace != ids[0].namespace;
      assert rest[j].tag[1..] == known[j].namespace;
      assert ("_" + ids[0].namespace)[1..] == ids[0].namespace;
    }
  }

  /** The index of the first candidate at or after `from` that the transport fetches. */
  function FirstFetched(path: string, cands: seq<Candidate>, transport: Transport, from: nat): (r: Option<nat>)
    requires from <= |cands|
    decreases |cands| - from
    ensures r.Some? ==> from <= r.value < |cands| && transport(cands[r.value].url, path + cands[r.value].tag) == Fetched
    ensures r.Some? ==> forall j :: from <= j < r.value ==> transport(cands[j].url, path + cands[j].tag) != Fetched
    ensures r.None? ==> forall j :: from <= j < |cands| ==> transport(cands[j].url, path + cands[j].tag) != Fetched
  {
    if from == |cands| then None
    else if transport(cands[from].url, path + cands[from].tag) == Fetched then Some(from)
    else FirstFetched(path, cands, transport, from + 1)
  }

  /** The partial files the failed attempts among the first `upto` candidates leave behind. */
  function Leftovers(path: string, cands: seq<Candidate>, transport: Transport, upto: nat): (r: set<string>)
    requires upto <= |cands|
    ensures forall f :: f in r ==> exists j :: 0 <= j < upto && f == path + cands[j].tag
                                            && transport(cands[j].url, path + cands[j].tag) == Failed(true)
  {
    if upto == 0 then {}
    else
      Leftovers(path, cands, transport, upto - 1)
      + (if transport(cands[upto - 1].url, path + cands[upto - 1].tag) == Failed(true)
         then {path + cands[upto - 1].tag} else {})
  }

  /** `download_func`'s result: `None` on success, the key when every candidate failed. */
  function Outcome(key: string, p: Paper, patterns: map<string, Pattern>, transport: Transport): (r: Option<string>)
    ensures r == None || r == Some(key)
  {
    if FirstFetched(PdfPath(key), Candidates(p, patterns), transport, 0).None? then Some(key) else None
  }

  /** The candidates attempted, in order: a prefix of the candidate list. */
  function Attempted(key: string, p: Paper, patterns: map<string, Pattern>, transport: Transport): (r: seq<Candidate>)
    ensures |r| <= |Candidates(p, patterns)| && r == Candidates(p, patterns)[..|r|]
  {
    var cands := Candidates(p, patterns);
    match FirstFetched(PdfPath(key), cands, transport, 0)
    case Some(i) => cands[..i + 1]
    case None => cands
  }

  /** The file names the attempts write to: the path followed by each attempted candidate's tag. */
  function AttemptOutputs(key: string, p: Paper, patterns: map<string, Pattern>, transport: Transport): set<string> {
    set c | c in Attempted(key, p, patterns, transport) :: PdfPath(key) + c.tag
  }

  /**
   * The download directory afterwards: the fetched file is moved to the
   * canonical name.  A file appears only under the canonical name or as the
   * partial output of an attempt, and a file disappears only when it was the
   * output of an attempt.
   */
  function DiskAfter(key: string, p: Paper, patterns: map<string, Pattern>, transport: Transport,
                     files: set<string>): (r: set<string>)
    ensures r - files <= {PdfPath(key)} + AttemptOutputs(key, p, patterns, transport)
    ensures files - r <= AttemptOutputs(key, p, patterns, transport)
  {
    var path := PdfPath(key);
    var cands := Candidates(p, patterns);
    match FirstFetched(path, cands, transport, 0)
    case Some(i) =>
      assert Attempted(key, p, patterns, transport) == cands[..i + 1];
      LeftoversTried(path, cands, transport, cands[..i + 1], i);
      assert cands[..i + 1][i] == cands[i] && cands[i] in cands[..i + 1];
      (files + Leftovers(path, cands, transport, i)) - {path + cands[i].tag} + {path}
    case None =>
      assert Attempted(key, p, patterns, transport) == cands == cands[..|cands|];
      LeftoversTried(path, cands, transport, cands, |cands|);
      files + Leftovers(path, cands, transport, |cands|)
  }

  /** Every leftover comes from an attempt in `tried`, a prefix of the candidates. */
  lemma LeftoversTried(path: string, cands: seq<Candidate>, transport: Transport, tried: seq<Candidate>, n: nat)
    requires n <= |tried| <= |cands| && tried == cands[..|tried|]
    ensures Leftovers(path, cands, transport, n) <= set c | c in tried :: path + c.tag
  {
    forall f | f in Leftovers(path, cands, transport, n)
      ensures f in set c | c in tried :: path + c.tag
    {
      var j :| 0 <= j < n && f == path + cands[j].tag && transport(cands[j].url, path + cands[j].tag) == Failed(true);
      assert tried[j] == cands[j] && tried[j] in tried;
    }
  }

  /**
   * The entry fails exactly when no candidate is fetched, which includes the
   * case of no candidate at all; the attempts are a prefix of the
   * candidates that ends at the first success, and every earlier attempt
   * failed.
   */
  lemma OutcomeIff(key: string, p: Paper, patterns: map<string, Pattern>, transport: Transport)
    ensures var cands := Candidates(p, patterns); var path := PdfPath(key);
      && (Outcome(key, p, patterns, transport) == Some(key) <==>
            forall j :: 0 <= j < |cands| ==> transport(cands[j].url, path + cands[j].tag) != Fetched)
      && (Outcome(key, p, patterns, transport) == None <==>
            exists j :: 0 <= j < |cands| && transport(cands[j].url, path + cands[j].tag) == Fetched)
    ensures var cands := Candidates(p, patterns); var path := PdfPath(key);
      var tried := Attempted(key, p, patterns, transport);
      && Seqs.IsSubsequence(tried, cands) && tried == cands[..|tried|]
      && (forall j :: 0 <= j < |tried| - 1 ==> transport(tried[j].url, path + tried[j].tag) != Fetched)
      && (Outcome(key, p, patterns, transport) == None <==>
            tried != [] && transport(tried[|tried| - 1].url, path + tried[|tried| - 1].tag) == Fetched)
  {
    var cands := Candidates(p, patterns);
    var tried := Attempted(key, p, patterns, transport);
    if FirstFetched(PdfPath(key), cands, transport, 0).None? {
      assert cands[..|cands|] == cands;
    }
    assert tried == cands[..|tried|];
    PrefixIsSubsequence(cands, |tried|);
  }

  lemma {:induction false} PrefixIsSubsequence<T>(s: seq<T>, n: nat)
    requires n <= |s|
    ensures Seqs.IsSubsequence(s[..n], s)
  {
    if n > 0 {
      PrefixIsSubsequence(s[1..], n - 1);
      assert s[..n][1..] == s[1..][..n - 1];
    }
  }

  /** An entry with no candidate always fails and touches no file. */
  lemma NoCandidateFails(key: string, p: Paper, patterns: map<string, Pattern>, transport: Transport, files: set<string>)
    requires p.openAccessUrl.None?
    requires p.externalIds.None? || forall id :: id in p.externalIds.value ==> id.namespace !in patterns
    ensures Outcome(key, p, patterns, transport) == Some(key)
    ensures Attempted(key, p, patterns, transport) == []
    ensures DiskAfter(key, p, patterns, transport, files) == files
  {
    if p.externalIds.Some? {
      Seqs.FilterNone(p.externalIds.value, (id: ExternalId) => id.namespace in patterns);
      IdCandidatesFollowKnownIds(p.externalIds.value, patterns);
    }
  }

  /** A successful entry ends with its file under the canonical name. */
  lemma SuccessLeavesCanonicalFile(key: string, p: Paper, patterns: map<string, Pattern>, transport: Transport,
                                   files: set<string>)
    requires Outcome(key, p, patterns, transport) == None
    ensures PdfPath(key) in DiskAfter(key, p, patterns, transport, files)
  {
  }

  /**
   * Nothing is cleaned up: when the own URL fails and leaves a partial file,
   * that file stays under the canonical name even if the entry fails.
   */
  lemma FailureMayLeaveCanonicalFile(key: string, p: Paper, patterns: map<string, Pattern>, transport: Transport,
                                     files: set<string>)
    requires p.openAccessUrl.Some?
    requires transport(p.openAccessUrl.value, PdfPath(key)) == Failed(true)
    requires Outcome(key, p, patterns, transport) == Some(key)
    ensures PdfPath(key) in DiskAfter(key, p, patterns, transport, files)
  {
    var cands := Candidates(p, patterns);
    assert cands[0] == Candidate("", p.openAccessUrl.value);
    assert PdfPath(key) + cands[0].tag == PdfPath(key);
    LeftoversGrow(PdfPath(key), cands, transport, 1, |cands|);
  }

  lemma {:induction false} LeftoversGrow(path: string, cands: seq<Candidate>, transport: Transport, m: nat, n: nat)
    requires m <= n <= |cands|
    decreases n - m
    ensures Leftovers(path, cands, transport, m) <= Leftovers(path, cands, transport, n)
  {
    if m < n {
      LeftoversGrow(path, cands, transport, m, n - 1);
    }
  }

  /** The fallback loop of main.py:98-117 over a candidate list. */
  method TryInOrder(path: string, urls: seq<Candidate>, transport: Transport, files: set<string>)
    returns (fetched: Option<nat>, tried: seq<Candidate>, after: set<string>)
    ensures fetched == FirstFetched(path, urls, transport, 0)
    ensures fetched.Some? ==> tried == urls[..fetched.value + 1]
    ensures fetched.Some? ==>
      after == (files + Leftovers(path, urls, transport, fetched.value)) - {path + urls[fetched.value].tag} + {path}
    ensures fetched.None? ==> tried == urls && after == files + Leftovers(path, urls, transport, |urls|)
  {
    tried, after := [], files;
    for i := 0 to |urls|
      invariant tried == urls[..i]
      invariant after == files + Leftovers(path, urls, transport, i)
      invariant FirstFetched(path, urls, transport, 0) == FirstFetched(path, urls, transport, i)
    {
      var c := urls[i];
      assert urls[..i + 1] == tried + [c];
      tried := tried + [c];
      match transport(c.url, path + c.tag)
      case Fetched =>
        after := after - {path + c.tag} + {path};
        return Some(i), tried, after;
      case Failed(leftover) =>
        if leftover {
          after := after + {path + c.tag};
        }
    }
    assert urls[..|urls|] == urls;
    fetched := None;
  }

  /**
   * `download_func` for one entry: candidates are tried strictly in order
   * and the loop returns `None` at the first fetched one, after moving its
   * file to the canonical name; the key is returned when all fail.
   */
  method Download(key: string, p: Paper, patterns: map<string, Pattern>, transport: Transport, files: set<string>)
    returns (failed: Option<string>, tried: seq<Candidate>, after: set<string>)
    ensures failed == Outcome(key, p, patterns, transport)
    ensures tried == Attempted(key, p, patterns, transport)
    ensures after == DiskAfter(key, p, patterns, transport, files)
  {
    var path := PdfPath(key);
    var urls := Candidates(p, patterns);
    var fetched;
    fetched, tried, after := TryInOrder(path, urls, transport, files);
    failed := if fetched.Some? then None else Some(key);
  }

  /** The crawled filter of main.py:186-190: entries whose key is in `crawled` are skipped. */
  function Pending(items: seq<(string, Paper)>, crawled: Option<set<string>>): (r: seq<(string, Paper)>)
    ensures Seqs.IsSubsequence(r, items) || r == items
    ensures forall it :: it in r <==> it in items && (crawled.None? || it.0 !in crawled.value)
  {
    match crawled
    case None => items
    case Some(c) => Seqs.Filter(items, (it: (string, Paper)) => it.0 !in c)
  }

  /** The directory after downloading `items[from..]` one after another. */
  function DiskAfterAll(items: seq<(string, Paper)>, patterns: map<string, Pattern>, transport: Transport,
                        files: set<string>, from: nat): set<string>
    requires from <= |items|
    decreases |items| - from
  {
    if from == |items| then files
    else DiskAfterAll(items, patterns, transport, DiskAfter(items[from].0, items[from].1, patterns, transport, files), from + 1)
  }

  /**
   * `pool.map(download_func, papers_to_download)` run in order: one result
   * per entry, in input order.
   */
  method DownloadAll(items: seq<(string, Paper)>, patterns: map<string, Pattern>, transport: Transport, files: set<string>)
    returns (keysToRemove: seq<Option<string>>, after: set<string>)
    ensures |keysToRemove| == |items|
    ensures forall i :: 0 <= i < |items| ==> keysToRemove[i] == Outcome(items[i].0, items[i].1, patterns, transport)
    ensures after == DiskAfterAll(items, patterns, transport, files, 0)
  {
    keysToRemove, after := [], files;
    ghost var all := Outcomes(items, patterns, transport);
    ghost var target := DiskAfterAll(items, patterns, transport, files, 0);
    for i := 0 to |items|
      invariant keysToRemove == all[..i]
      invariant DiskAfterAll(items, patterns, transport, after, i) == target
    {
      Seqs.PrefixSnoc(all, i);
      var failed, _, now := Download(items[i].0, items[i].1, patterns, transport, after);
      keysToRemove := keysToRemove + [failed];
      after := now;
    }
    Seqs.PrefixWhole(all);
  }

  /** The keys named by the `Some` results among `keys[from..]`. */
  function FailedKeys(keys: seq<Option<string>>, from: nat): set<string>
    requires from <= |keys|
    decreases |keys| - from
  {
    if from == |keys| then {}
    else (if keys[from].Some? then {keys[from].value} else {}) + FailedKeys(keys, from + 1)
  }

  /**
   * The pruning loop of main.py:197-199: each returned key still in the
   * registry is deleted; a `None` result deletes nothing.
   */
  function Pruned(d: Dicts.Dict<Paper>, keys: seq<Option<string>>, from: nat): (r: Dicts.Dict<Paper>)
    requires Dicts.Wf(d) && from <= |keys|
    decreases |keys| - from
    ensures Dicts.Wf(r)
    ensures r.entries == d.entries - FailedKeys(keys, from)
    ensures Seqs.IsSubsequence(r.order, d.order)
  {
    if from == |keys| then
      Seqs.SubsequenceRefl(d.order);
      d
    else
      var d1 := if keys[from].Some? && keys[from].value in d.entries then Dicts.Del(d, keys[from].value) else d;
      var r := Pruned(d1, keys, from + 1);
      Seqs.SubsequenceRefl(d.order);
      Seqs.SubsequenceTrans(r.order, d1.order, d.order);
      r
  }

  /** The results of a full download pass over `items`, in order. */
  function Outcomes(items: seq<(string, Paper)>, patterns: map<string, Pattern>, transport: Transport): (r: seq<Option<string>>)
    ensures |r| == |items|
    ensures forall i :: 0 <= i < |items| ==> r[i] == Outcome(items[i].0, items[i].1, patterns, transport)
  {
    seq(|items|, i requires 0 <= i < |items| => Outcome(items[i].0, items[i].1, patterns, transport))
  }

  /** The keys of `d` whose download succeeds. */
  function Succeeded(d: Dicts.Dict<Paper>, patterns: map<string, Pattern>, transport: Transport): (r: set<string>)
    ensures forall k :: k in r <==> k in d.entries && Outcome(k, d.entries[k], patterns, transport) == None
  {
    set k | k in d.entries && Outcome(k, d.entries[k], patterns, transport) == None
  }

  /**
   * Resumption: after a full download pass and pruning, using the keys that
   * succeeded as the crawled set leaves nothing to download.
   */
  lemma ResumeAfterFullPass(d: Dicts.Dict<Paper>, patterns: map<string, Pattern>, transport: Transport)
    requires Dicts.Wf(d)
    ensures var pruned := Pruned(d, Outcomes(Dicts.Items(d), patterns, transport), 0);
      Pending(Dicts.Items(pruned), Some(Succeeded(d, patterns, transport))) == []
  {
    var keys := Outcomes(Dicts.Items(d), patterns, transport);
    var done := Succeeded(d, patterns, transport);
    var pruned := Pruned(d, keys, 0);
    SurvivorsSucceeded(d, patterns, transport, keys);
    var left := Dicts.Items(pruned);
    forall it | it in left ensures it.0 in done {
      var i :| 0 <= i < |left| && left[i] == it;
      assert it.0 in pruned.entries;
    }
    Seqs.FilterNone(left, (it: (string, Paper)) => it.0 !in done);
  }

  lemma SurvivorsSucceeded(d: Dicts.Dict<Paper>, patterns: map<string, Pattern>, transport: Transport,
                           keys: seq<Option<string>>)
    requires Dicts.Wf(d) && keys == Outcomes(Dicts.Items(d), patterns, transport)
    ensures forall k :: k in Pruned(d, keys, 0).entries ==> k in Succeeded(d, patterns, transport)
  {
    forall k | k in Pruned(d, keys, 0).entries
      ensures k in Succeeded(d, patterns, transport)
    {
      var m :| 0 <= m < |d.order| && d.order[m] == k;
      if keys[m].Some? {
        FailedKeysHas(keys, 0, m);
      }
    }
  }

  lemma {:induction false} FailedKeysHas(keys: seq<Option<string>>, from: nat, m: nat)
    requires from <= m < |keys| && keys[m].Some?
    decreases m - from
    ensures keys[m].value in FailedKeys(keys, from)
  {
    if from < m {
      FailedKeysHas(keys, from + 1, m);
    }
  }
}
