/**
 * The registry fold of `main` (main.py:120-166) as functions: seed search
 * (`search_func`, main.py:33-50), seed registration, first-wins admission of
 * citations, references and author papers, and URL-pattern learning along
 * the way.  A `None` result is a run that raised (an empty identifier given
 * to `split`, or `.items()` on a missing identifier map).
 */
module Building {
  import opened Wrappers
  import opened Records
  import Titles
  import Dicts
  import opened UrlPatterns
  import opened Expansion
  import Authors

  /** `all_papers` and `url_patterns`. */
  datatype Registry = Registry(papers: Dicts.Dict<Paper>, patterns: map<string, Pattern>)

  /** Every entry is stored under the key of its own title. */
  ghost predicate KeysMatch(fold: string -> string, d: Dicts.Dict<Paper>) {
    forall k :: k in d.entries ==> Titles.Key(fold, d.entries[k].title) == k
  }

  /** Every entry of `before` is in `after` with the same record. */
  ghost predicate Extends(before: Dicts.Dict<Paper>, after: Dicts.Dict<Paper>) {
    forall k :: k in before.entries ==> k in after.entries && after.entries[k] == before.entries[k]
  }

  /** Every pattern of `before` is in `after` unchanged. */
  ghost predicate KeepsPatterns(before: map<string, Pattern>, after: map<string, Pattern>) {
    forall n :: n in before ==> n in after && after[n] == before[n]
  }

  // ---------------------------------------------------------------- seed search

  /** The index of the first result whose key equals the seed's key. */
  function FirstMatch(fold: string -> string, seedTitle: string, results: seq<Paper>, from: nat): (r: Option<nat>)
    requires from <= |results|
    decreases |results| - from
    ensures r.Some? ==> from <= r.value < |results| && Titles.Key(fold, results[r.value].title) == Titles.Key(fold, seedTitle)
    ensures r.Some? ==> forall j :: from <= j < r.value ==> Titles.Key(fold, results[j].title) != Titles.Key(fold, seedTitle)
    ensures r.None? ==> forall j :: from <= j < |results| ==> Titles.Key(fold, results[j].title) != Titles.Key(fold, seedTitle)
  {
    if from == |results| then None
    else if Titles.Key(fold, results[from].title) == Titles.Key(fold, seedTitle) then Some(from)
    else FirstMatch(fold, seedTitle, results, from + 1)
  }

  /** What one `search_func` call returns and leaves in `url_patterns`. */
  datatype Searched = Searched(found: Option<Paper>, patterns: map<string, Pattern>) | SearchRaised

  /**
   * The matched result with both lists fetched (main.py:47-48): a list the
   * result already has is kept, an absent one is the API's answer, or empty
   * on a non-200 answer.  Nothing else changes.
   */
  function WithBothLists(fold: string -> string, p: Paper, api: Api): (r: Paper)
    ensures r.citations == Some(Base(p, Citations, api(p.paperId, Citations)))
    ensures r.references == Some(Base(p, References, api(p.paperId, References)))
    ensures p.citations.None? && p.references.None? ==>
              && r.citations == Some(DataOrEmpty(api(p.paperId, Citations)))
              && r.references == Some(DataOrEmpty(api(p.paperId, References)))
    ensures r.paperId == p.paperId && r.title == p.title && r.venue == p.venue
    ensures r.fieldsOfStudy == p.fieldsOfStudy && r.externalIds == p.externalIds
    ensures r.openAccessUrl == p.openAccessUrl && r.authors == p.authors
  {
    var c := Expanded(fold, p, Citations, None, api(p.paperId, Citations));
    Expanded(fold, c, References, None, api(c.paperId, References))
  }

  /**
   * `search_func(seed_title)`: on status 200, the first result whose key
   * equals the seed's; its pattern is learned with overwriting allowed; its
   * lists are fetched.  A non-200 status or no match gives `None`.
   */
  function SearchOutcome(fold: string -> string, patterns: map<string, Pattern>, seedTitle: string,
                         response: Response<seq<Paper>>, api: Api): (r: Searched)
    ensures response.NotOk? ==> r == Searched(None, patterns)
    ensures r.Searched? && r.found.None? ==> r.patterns == patterns
    ensures r.Searched? && r.found.Some? ==> LearnFrom(patterns, r.found.value, false) == Some(r.patterns)
    ensures r.Searched? && r.found.Some? ==>
              && response.Ok?
              && Titles.Key(fold, r.found.value.title) == Titles.Key(fold, seedTitle)
              && exists i :: && 0 <= i < |response.data| && FirstMatch(fold, seedTitle, response.data, 0) == Some(i)
                             && r.found.value == WithBothLists(fold, response.data[i], api)
    ensures response.Ok? && FirstMatch(fold, seedTitle, response.data, 0).Some? ==>
              (r.SearchRaised? <==>
                 LearnFrom(patterns, response.data[FirstMatch(fold, seedTitle, response.data, 0).value], false).None?)
    ensures r.SearchRaised? ==> response.Ok? && FirstMatch(fold, seedTitle, response.data, 0).Some?
  {
    match response
    case NotOk => Searched(None, patterns)
    case Ok(results) =>
      match FirstMatch(fold, seedTitle, results, 0)
      case None => Searched(None, patterns)
      case Some(i) =>
        match LearnFrom(patterns, results[i], false)
        case None => SearchRaised
        case Some(learned) => Searched(Some(WithBothLists(fold, results[i], api)), learned)
  }

  /** The matches of all seeds in seed order, and the pattern table afterwards (main.py:123). */
  datatype Seeded = Seeded(seeds: seq<Paper>, patterns: map<string, Pattern>)

  /** The search oracle: the response to a query for a title. */
  type Search = string -> Response<seq<Paper>>

  /** `s` is a result of the search for `title`, with the title's key and both lists fetched. */
  ghost predicate MatchOf(fold: string -> string, search: Search, api: Api, title: string, s: Paper) {
    && search(title).Ok?
    && Titles.Key(fold, s.title) == Titles.Key(fold, title)
    && exists m :: && 0 <= m < |search(title).data| && FirstMatch(fold, title, search(title).data, 0) == Some(m)
                   && s == WithBothLists(fold, search(title).data[m], api)
  }

  function SearchAll(fold: string -> string, patterns: map<string, Pattern>, titles: seq<string>,
                     search: Search, api: Api, from: nat): (r: Option<Seeded>)
    requires from <= |titles|
    decreases |titles| - from
    ensures r.Some? ==> forall s :: s in r.value.seeds ==> s.citations.Some? && s.references.Some?
    ensures r.Some? ==> |r.value.seeds| <= |titles| - from
    ensures r.Some? ==> forall s :: s in r.value.seeds ==> exists j :: from <= j < |titles| && MatchOf(fold, search, api, titles[j], s)
  {
    if from == |titles| then Some(Seeded([], patterns))
    else
      match SearchOutcome(fold, patterns, titles[from], search(titles[from]), api)
      case SearchRaised => None
      case Searched(found, learned) =>
        Prepend(found, SearchAll(fold, learned, titles, search, api, from + 1))
  }

  function Prepend(found: Option<Paper>, rest: Option<Seeded>): Option<Seeded> {
    match rest
    case None => None
    case Some(Seeded(seeds, pats)) => Some(Seeded((if found.Some? then [found.value] else []) + seeds, pats))
  }

  /** The indices of the titles whose search yielded a seed, as `SearchAll` visits them. */
  function MatchedTitles(fold: string -> string, patterns: map<string, Pattern>, titles: seq<string>,
                         search: Search, api: Api, from: nat): seq<nat>
    requires from <= |titles|
    decreases |titles| - from
  {
    if from == |titles| then []
    else
      match SearchOutcome(fold, patterns, titles[from], search(titles[from]), api)
      case SearchRaised => []
      case Searched(found, learned) =>
        (if found.Some? then [from] else []) + MatchedTitles(fold, learned, titles, search, api, from + 1)
  }

  /**
   * The seeds follow the order of the titles: the i-th seed is the match of
   * the title at the i-th matched index, and those indices increase.
   */
  lemma SearchAllInTitleOrder(fold: string -> string, patterns: map<string, Pattern>,
                              titles: seq<string>, search: Search, api: Api, from: nat)
    requires from <= |titles| && SearchAll(fold, patterns, titles, search, api, from).Some?
    ensures var seeds := SearchAll(fold, patterns, titles, search, api, from).value.seeds;
      var idx := MatchedTitles(fold, patterns, titles, search, api, from);
      && |idx| == |seeds|
      && (forall i :: 0 <= i < |idx| ==> from <= idx[i] < |titles|)
      && (forall i, j :: 0 <= i < j < |idx| ==> idx[i] < idx[j])
      && (forall i :: 0 <= i < |idx| ==> MatchOf(fold, search, api, titles[idx[i]], seeds[i]))
  {
    MatchedTitlesIncrease(fold, patterns, titles, search, api, from);
    MatchedTitlesCount(fold, patterns, titles, search, api, from);
    SeedsMatchTheirTitles(fold, patterns, titles, search, api, from);
  }

  /** `idx` lies in `[from, n)` and strictly increases. */
  predicate IncreasingIn(idx: seq<nat>, from: nat, n: nat) {
    && (forall i :: 0 <= i < |idx| ==> from <= idx[i] < n)
    && (forall i, j :: 0 <= i < j < |idx| ==> idx[i] < idx[j])
  }

  lemma {:induction false} MatchedTitlesIncrease(fold: string -> string, patterns: map<string, Pattern>,
                                                 titles: seq<string>, search: Search, api: Api, from: nat)
    requires from <= |titles|
    decreases |titles| - from
    ensures IncreasingIn(MatchedTitles(fold, patterns, titles, search, api, from), from, |titles|)
  {
    var o := if from < |titles| then Some(SearchOutcome(fold, patterns, titles[from], search(titles[from]), api)) else None;
    if o.Some? && o.value.Searched? {
      var learned := o.value.patterns;
      MatchedTitlesIncrease(fold, learned, titles, search, api, from + 1);
      var restIdx := MatchedTitles(fold, learned, titles, search, api, from + 1);
      if o.value.found.Some? {
        IncreasingCons(from, restIdx, |titles|);
      } else {
        IncreasingWeaken(restIdx, from, |titles|);
      }
    }
  }

  lemma IncreasingCons(from: nat, rest: seq<nat>, n: nat)
    requires from < n && IncreasingIn(rest, from + 1, n)
    ensures IncreasingIn([from] + rest, from, n)
  {
    var idx := [from] + rest;
    forall i | 0 < i < |idx| ensures idx[i] == rest[i - 1] { }
  }

  lemma IncreasingWeaken(idx: seq<nat>, from: nat, n: nat)
    requires IncreasingIn(idx, from + 1, n)
    ensures IncreasingIn(idx, from, n)
  {
  }

  /** There is one matched index per seed. */
  lemma {:induction false} MatchedTitlesCount(fold: string -> string, patterns: map<string, Pattern>,
                                              titles: seq<string>, search: Search, api: Api, from: nat)
    requires from <= |titles| && SearchAll(fold, patterns, titles, search, api, from).Some?
    decreases |titles| - from
    ensures |MatchedTitles(fold, patterns, titles, search, api, from)| == |SearchAll(fold, patterns, titles, search, api, from).value.seeds|
  {
    if from < |titles| {
      var o := SearchOutcome(fold, patterns, titles[from], search(titles[from]), api);
      var rest := SearchAll(fold, o.patterns, titles, search, api, from + 1);
      assert SearchAll(fold, patterns, titles, search, api, from) == Prepend(o.found, rest);
      MatchedTitlesCount(fold, o.patterns, titles, search, api, from + 1);
    }
  }

  /** The i-th seed matches the title at the i-th index. */
  ghost predicate SeedsMatch(fold: string -> string, search: Search, api: Api, titles: seq<string>,
                             seeds: seq<Paper>, idx: seq<nat>) {
    forall i :: 0 <= i < |idx| && i < |seeds| ==> idx[i] < |titles| && MatchOf(fold, search, api, titles[idx[i]], seeds[i])
  }

  lemma {:induction false} SeedsMatchTheirTitles(fold: string -> string, patterns: map<string, Pattern>,
                                                 titles: seq<string>, search: Search, api: Api, from: nat)
    requires from <= |titles| && SearchAll(fold, patterns, titles, search, api, from).Some?
    decreases |titles| - from
    ensures SeedsMatch(fold, search, api, titles, SearchAll(fold, patterns, titles, search, api, from).value.seeds,
                       MatchedTitles(fold, patterns, titles, search, api, from))
  {
    if from < |titles| {
      var o := SearchOutcome(fold, patterns, titles[from], search(titles[from]), api);
      var rest := SearchAll(fold, o.patterns, titles, search, api, from + 1);
      assert SearchAll(fold, patterns, titles, search, api, from) == Prepend(o.found, rest);
      SeedsMatchTheirTitles(fold, o.patterns, titles, search, api, from + 1);
      var restIdx := MatchedTitles(fold, o.patterns, titles, search, api, from + 1);
      if o.found.Some? {
        assert MatchedTitles(fold, patterns, titles, search, api, from) == [from] + restIdx;
        SeedsMatchCons(fold, search, api, titles, from, o.found.value, rest.value.seeds, restIdx);
      }
    }
  }

  lemma SeedsMatchCons(fold: string -> string, search: Search, api: Api, titles: seq<string>,
                       from: nat, s: Paper, rest: seq<Paper>, restIdx: seq<nat>)
    requires from < |titles| && MatchOf(fold, search, api, titles[from], s)
    requires SeedsMatch(fold, search, api, titles, rest, restIdx)
    ensures SeedsMatch(fold, search, api, titles, [s] + rest, [from] + restIdx)
  {
    var seeds, idx := [s] + rest, [from] + restIdx;
    forall i | 0 < i < |idx| && i < |seeds| ensures idx[i] == restIdx[i - 1] && seeds[i] == rest[i - 1] { }
  }

  /** A seed is reported only when its key matches a result's key. */
  lemma SearchFindsOnlyMatches(fold: string -> string, patterns: map<string, Pattern>, seedTitle: string,
                               response: Response<seq<Paper>>, api: Api)
    requires SearchOutcome(fold, patterns, seedTitle, response, api).Searched?
    ensures var s := SearchOutcome(fold, patterns, seedTitle, response, api);
      s.found.Some? <==> response.Ok? && (exists i :: 0 <= i < |response.data| &&
                                            Titles.Key(fold, response.data[i].title) == Titles.Key(fold, seedTitle))
    ensures var s := SearchOutcome(fold, patterns, seedTitle, response, api);
      s.found.Some? ==> Titles.Key(fold, s.found.value.title) == Titles.Key(fold, seedTitle)
  {
  }

  // ---------------------------------------------------------------- admission

  /**
   * Admission of a citation, reference or author paper (main.py:133-141,
   * 144-152, 158-166): only an absent key is inserted, after learning a
   * pattern from the paper without overwriting.
   */
  function Admit(fold: string -> string, r: Registry, p: Paper): (o: Option<Registry>)
    requires Dicts.Wf(r.papers)
    ensures o.Some? ==> Dicts.Wf(o.value.papers) && Extends(r.papers, o.value.papers)
  {
    var k := Titles.Key(fold, p.title);
    if k in r.papers.entries then Some(r)
    else
      match LearnFrom(r.patterns, p, true)
      case None => None
      case Some(learned) => Some(Registry(Dicts.Set(r.papers, k, p), learned))
  }

  /**
   * What one admission does: a present key leaves the registry as it is;
   * otherwise the admission raises iff learning from the paper (without
   * overwriting) raises, and else stores the paper under its key with the
   * learned patterns.
   */
  lemma AdmitLearns(fold: string -> string, r: Registry, p: Paper)
    requires Dicts.Wf(r.papers)
    ensures Titles.Key(fold, p.title) in r.papers.entries ==> Admit(fold, r, p) == Some(r)
    ensures Titles.Key(fold, p.title) !in r.papers.entries ==>
              && (Admit(fold, r, p).None? <==> LearnFrom(r.patterns, p, true).None?)
              && (Admit(fold, r, p).Some? ==>
                    && Admit(fold, r, p).value.patterns == LearnFrom(r.patterns, p, true).value
                    && Admit(fold, r, p).value.papers.entries == r.papers.entries[Titles.Key(fold, p.title) := p])
  {
  }

  /** Admission of `ps[from..]` in order, stopping at the first raise. */
  function AdmitAll(fold: string -> string, r: Registry, ps: seq<Paper>, from: nat): (o: Option<Registry>)
    requires Dicts.Wf(r.papers) && from <= |ps|
    decreases |ps| - from
    ensures o.Some? ==> Dicts.Wf(o.value.papers) && Extends(r.papers, o.value.papers)
    ensures o.Some? && KeysMatch(fold, r.papers) ==> KeysMatch(fold, o.value.papers)
  {
    if from == |ps| then Some(r)
    else
      match Admit(fold, r, ps[from])
      case None => None
      case Some(r1) => AdmitAll(fold, r1, ps, from + 1)
  }

  /** The first index at or after `from` whose title has key `k`. */
  function FirstTitled(fold: string -> string, ps: seq<Paper>, k: string, from: nat): (r: Option<nat>)
    requires from <= |ps|
    decreases |ps| - from
    ensures r.Some? ==> from <= r.value < |ps| && Titles.Key(fold, ps[r.value].title) == k
    ensures r.None? ==> forall j :: from <= j < |ps| ==> Titles.Key(fold, ps[j].title) != k
  {
    if from == |ps| then None
    else if Titles.Key(fold, ps[from].title) == k then Some(from)
    else FirstTitled(fold, ps, k, from + 1)
  }

  /**
   * First wins: admission keeps every existing entry, adds a key exactly
   * when some admitted paper has it, and stores the first such paper.
   */
  lemma {:induction false} AdmitAllFirstWins(fold: string -> string, r: Registry, ps: seq<Paper>, from: nat)
    requires Dicts.Wf(r.papers) && from <= |ps|
    requires AdmitAll(fold, r, ps, from).Some?
    decreases |ps| - from
    ensures var after := AdmitAll(fold, r, ps, from).value.papers.entries;
      forall k :: k !in r.papers.entries ==>
        match FirstTitled(fold, ps, k, from)
        case None => k !in after
        case Some(i) => k in after && after[k] == ps[i]
  {
    if from < |ps| {
      var r1 := Admit(fold, r, ps[from]).value;
      AdmitAllFirstWins(fold, r1, ps, from + 1);
    }
  }

  /** Some paper of `ps` at or after `from` has key `k`. */
  ghost predicate TitledFrom(fold: string -> string, ps: seq<Paper>, k: string, from: nat) {
    exists j :: from <= j < |ps| && Titles.Key(fold, ps[j].title) == k
  }

  /** After admission the keys are the old ones plus the keys of the admitted papers. */
  lemma AdmitAllKeys(fold: string -> string, r: Registry, ps: seq<Paper>, from: nat)
    requires Dicts.Wf(r.papers) && from <= |ps|
    requires AdmitAll(fold, r, ps, from).Some?
    ensures forall k :: k in AdmitAll(fold, r, ps, from).value.papers.entries <==>
              k in r.papers.entries || TitledFrom(fold, ps, k, from)
  {
    AdmitAllFirstWins(fold, r, ps, from);
    var after := AdmitAll(fold, r, ps, from).value.papers.entries;
    forall k ensures k in after <==> k in r.papers.entries || TitledFrom(fold, ps, k, from) {
      if k !in r.papers.entries {
        match FirstTitled(fold, ps, k, from)
        case None =>
        case Some(i) =>
      }
    }
  }

  /**
   * Admission never overwrites a pattern, so `DOI` stays unlearned, and each
   * admitted paper teaches at most one new namespace.
   */
  lemma {:induction false} AdmitAllKeepsPatterns(fold: string -> string, r: Registry, ps: seq<Paper>, from: nat)
    requires Dicts.Wf(r.papers) && from <= |ps|
    requires AdmitAll(fold, r, ps, from).Some?
    decreases |ps| - from
    ensures KeepsPatterns(r.patterns, AdmitAll(fold, r, ps, from).value.patterns)
    ensures "DOI" in AdmitAll(fold, r, ps, from).value.patterns ==> "DOI" in r.patterns
  {
    if from < |ps| {
      var r1 := Admit(fold, r, ps[from]).value;
      if Titles.Key(fold, ps[from].title) !in r.papers.entries {
        LearnFromChanges(r.patterns, ps[from], true);
      }
      AdmitAllKeepsPatterns(fold, r1, ps, from + 1);
    }
  }

  lemma AdmitLearnsAtMostOne(fold: string -> string, r: Registry, p: Paper)
    requires Dicts.Wf(r.papers) && Admit(fold, r, p).Some?
    ensures var after := Admit(fold, r, p).value.patterns;
      && KeepsPatterns(r.patterns, after)
      && !ChangedAt(r.patterns, after, "DOI")
      && forall n1, n2 :: ChangedAt(r.patterns, after, n1) && ChangedAt(r.patterns, after, n2) ==> n1 == n2
  {
    if Titles.Key(fold, p.title) !in r.papers.entries {
      LearnFromChanges(r.patterns, p, true);
    }
  }

  // ---------------------------------------------------------------- seeds

  /** `[citation["citingPaper"] for citation in ...]` and its `citedPaper` twin. */
  function Related(edges: seq<Edge>): (r: seq<Paper>)
    ensures |r| == |edges| && forall i :: 0 <= i < |r| ==> r[i] == edges[i].related
  {
    seq(|edges|, i requires 0 <= i < |edges| => edges[i].related)
  }

  /**
   * One iteration of `for paper in papers` (main.py:129-152): the seed is
   * stored unconditionally, then its citing and cited papers are admitted.
   */
  function PlantSeed(fold: string -> string, r: Registry, s: Paper): (o: Option<Registry>)
    requires Dicts.Wf(r.papers) && s.citations.Some? && s.references.Some?
    ensures o.Some? ==> Dicts.Wf(o.value.papers)
    ensures o.Some? && KeysMatch(fold, r.papers) ==> KeysMatch(fold, o.value.papers)
    ensures o.Some? ==> Titles.Key(fold, s.title) in o.value.papers.entries
                        && o.value.papers.entries[Titles.Key(fold, s.title)] == s
    ensures o.Some? ==> forall k :: k in o.value.papers.entries <==> k in r.papers.entries || SeedReaches(fold, s, k)
  {
    var r1 := Registry(Dicts.Set(r.papers, Titles.Key(fold, s.title), s), r.patterns);
    match AdmitAll(fold, r1, Related(s.citations.value), 0)
    case None => None
    case Some(r2) =>
      AdmitAllKeys(fold, r1, Related(s.citations.value), 0);
      var o := AdmitAll(fold, r2, Related(s.references.value), 0);
      if o.Some? then
        AdmitAllKeys(fold, r2, Related(s.references.value), 0);
        o
      else o
  }

  /**
   * Key `k` is one a seed brings in: its own, or that of one of its citing
   * or cited papers.
   */
  ghost predicate SeedReaches(fold: string -> string, s: Paper, k: string) {
    || k == Titles.Key(fold, s.title)
    || (s.citations.Some? && TitledFrom(fold, Related(s.citations.value), k, 0))
    || (s.references.Some? && TitledFrom(fold, Related(s.references.value), k, 0))
  }

  predicate HasLists(seeds: seq<Paper>) {
    forall s :: s in seeds ==> s.citations.Some? && s.references.Some?
  }

  function PlantSeeds(fold: string -> string, r: Registry, seeds: seq<Paper>, from: nat): (o: Option<Registry>)
    requires Dicts.Wf(r.papers) && HasLists(seeds) && from <= |seeds|
    decreases |seeds| - from
    ensures o.Some? ==> Dicts.Wf(o.value.papers)
    ensures o.Some? && KeysMatch(fold, r.papers) ==> KeysMatch(fold, o.value.papers)
    ensures o.Some? ==> forall k :: k in o.value.papers.entries <==> k in r.papers.entries || ReachedAfter(fold, seeds, k, from)
  {
    if from == |seeds| then Some(r)
    else
      match PlantSeed(fold, r, seeds[from])
      case None => None
      case Some(r1) => PlantSeeds(fold, r1, seeds, from + 1)
  }

  /** Some seed at or after `from` brings in key `k`. */
  ghost predicate ReachedFrom(fold: string -> string, seeds: seq<Paper>, k: string, from: nat) {
    exists i :: from <= i < |seeds| && SeedReaches(fold, seeds[i], k)
  }

  /** `ReachedFrom`, one seed at a time. */
  ghost predicate ReachedAfter(fold: string -> string, seeds: seq<Paper>, k: string, from: nat)
    decreases |seeds| - from
  {
    from < |seeds| && (SeedReaches(fold, seeds[from], k) || ReachedAfter(fold, seeds, k, from + 1))
  }

  lemma {:induction false} ReachedAfterIff(fold: string -> string, seeds: seq<Paper>, k: string, from: nat)
    decreases |seeds| - from
    ensures ReachedAfter(fold, seeds, k, from) <==> ReachedFrom(fold, seeds, k, from)
  {
    if from < |seeds| {
      ReachedAfterIff(fold, seeds, k, from + 1);
      if ReachedFrom(fold, seeds, k, from) && !SeedReaches(fold, seeds[from], k) {
        var i :| from <= i < |seeds| && SeedReaches(fold, seeds[i], k);
        assert ReachedFrom(fold, seeds, k, from + 1);
      }
    }
  }

  /**
   * After the seed loop the keys are the old ones plus exactly those the
   * seeds bring in: their own and their citing and cited papers'.
   */
  lemma PlantSeedsKeys(fold: string -> string, r: Registry, seeds: seq<Paper>, from: nat)
    requires Dicts.Wf(r.papers) && HasLists(seeds) && from <= |seeds|
    requires PlantSeeds(fold, r, seeds, from).Some?
    ensures forall k :: k in PlantSeeds(fold, r, seeds, from).value.papers.entries <==>
              k in r.papers.entries || ReachedFrom(fold, seeds, k, from)
  {
    forall k ensures k in PlantSeeds(fold, r, seeds, from).value.papers.entries <==>
                       k in r.papers.entries || ReachedFrom(fold, seeds, k, from) {
      ReachedAfterIff(fold, seeds, k, from);
    }
  }

  /** The last index below `upto` whose title has key `k`. */
  function LastTitled(fold: string -> string, ps: seq<Paper>, k: string, upto: nat): (r: Option<nat>)
    requires upto <= |ps|
    ensures r.Some? ==> r.value < upto && Titles.Key(fold, ps[r.value].title) == k
    ensures r.Some? ==> forall j :: r.value < j < upto ==> Titles.Key(fold, ps[j].title) != k
    ensures r.None? ==> forall j :: 0 <= j < upto ==> Titles.Key(fold, ps[j].title) != k
  {
    if upto == 0 then None
    else if Titles.Key(fold, ps[upto - 1].title) == k then Some(upto - 1)
    else LastTitled(fold, ps, k, upto - 1)
  }

  /** Seed `i`'s key holds the last seed with that key. */
  ghost predicate SeedStored(fold: string -> string, seeds: seq<Paper>, i: nat, after: map<string, Paper>)
    requires i < |seeds|
  {
    var k := Titles.Key(fold, seeds[i].title);
    var last := LastTitled(fold, seeds, k, |seeds|);
    k in after && last.Some? && after[k] == seeds[last.value]
  }

  /** No seed at or after `from` has key `k`. */
  ghost predicate NoSeedFrom(fold: string -> string, seeds: seq<Paper>, k: string, from: nat) {
    var last := LastTitled(fold, seeds, k, |seeds|);
    last.None? || last.value < from
  }

  /**
   * Seeds are stored unconditionally: after the seed loop the registry
   * holds, under every seed's key, the last seed with that key, and an entry
   * whose key no remaining seed has is kept as it was.
   */
  lemma {:induction false} PlantSeedsLastWins(fold: string -> string, r: Registry, seeds: seq<Paper>, from: nat)
    requires Dicts.Wf(r.papers) && HasLists(seeds) && from <= |seeds|
    requires PlantSeeds(fold, r, seeds, from).Some?
    decreases |seeds| - from
    ensures var after := PlantSeeds(fold, r, seeds, from).value.papers.entries;
      forall i :: from <= i < |seeds| ==> SeedStored(fold, seeds, i, after)
    ensures var after := PlantSeeds(fold, r, seeds, from).value.papers.entries;
      forall k :: k in r.papers.entries ==>
        k in after && (NoSeedFrom(fold, seeds, k, from) ==> after[k] == r.papers.entries[k])
  {
    var after := PlantSeeds(fold, r, seeds, from).value.papers.entries;
    if from < |seeds| {
      var s := seeds[from];
      var k0 := Titles.Key(fold, s.title);
      var r1 := Registry(Dicts.Set(r.papers, k0, s), r.patterns);
      var r2 := AdmitAll(fold, r1, Related(s.citations.value), 0).value;
      var r3 := PlantSeed(fold, r, s).value;
      assert r3 == AdmitAll(fold, r2, Related(s.references.value), 0).value;
      assert Extends(r1.papers, r3.papers);
      PlantSeedsLastWins(fold, r3, seeds, from + 1);
      assert after == PlantSeeds(fold, r3, seeds, from + 1).value.papers.entries;
      var last := LastTitled(fold, seeds, k0, |seeds|);
      assert last.Some? && last.value >= from;
      forall i | from <= i < |seeds| ensures SeedStored(fold, seeds, i, after) {
        if i == from && last.value == from {
          assert NoSeedFrom(fold, seeds, k0, from + 1);
          assert after[k0] == r3.papers.entries[k0] == s;
        } else if i == from {
          assert SeedStored(fold, seeds, last.value, after);
        }
      }
      forall k | k in r.papers.entries
        ensures k in after && (NoSeedFrom(fold, seeds, k, from) ==> after[k] == r.papers.entries[k])
      {
        assert k in r1.papers.entries && k in r3.papers.entries;
        if NoSeedFrom(fold, seeds, k, from) {
          assert k != k0;
          assert NoSeedFrom(fold, seeds, k, from + 1);
        }
      }
    }
  }

  /** Seed matching and admission keep every pattern learned before them. */
  lemma {:induction false} PlantSeedsKeepsPatterns(fold: string -> string, r: Registry, seeds: seq<Paper>, from: nat)
    requires Dicts.Wf(r.papers) && HasLists(seeds) && from <= |seeds|
    requires PlantSeeds(fold, r, seeds, from).Some?
    decreases |seeds| - from
    ensures KeepsPatterns(r.patterns, PlantSeeds(fold, r, seeds, from).value.patterns)
    ensures "DOI" in PlantSeeds(fold, r, seeds, from).value.patterns ==> "DOI" in r.patterns
  {
    if from < |seeds| {
      var s := seeds[from];
      var r1 := Registry(Dicts.Set(r.papers, Titles.Key(fold, s.title), s), r.patterns);
      AdmitAllKeepsPatterns(fold, r1, Related(s.citations.value), 0);
      var r2 := AdmitAll(fold, r1, Related(s.citations.value), 0).value;
      AdmitAllKeepsPatterns(fold, r2, Related(s.references.value), 0);
      PlantSeedsKeepsPatterns(fold, PlantSeed(fold, r, s).value, seeds, from + 1);
    }
  }

  // ---------------------------------------------------------------- authors

  /** `[author["authorId"] for paper in papers for author in paper["authors"]]` (main.py:155). */
  function AuthorIds(papers: seq<Paper>): (r: seq<string>)
    ensures |r| == |Authors.AllAuthors(papers)|
    ensures forall i :: 0 <= i < |r| ==> r[i] == Authors.AllAuthors(papers)[i].authorId
  {
    if papers == [] then []
    else seq(|papers[0].authors|, i requires 0 <= i < |papers[0].authors| => papers[0].authors[i].authorId)
         + AuthorIds(papers[1..])
  }

  /** The author-papers oracle: `/author/{authorId}/papers`. */
  type PapersOf = string -> Response<seq<Paper>>

  /** `chain(*pool.map(author_papers_func, ids))`: a non-200 status gives no papers. */
  function AuthorPapers(ids: seq<string>, papersOf: PapersOf): (r: seq<Paper>)
    ensures forall p :: p in r <==> exists i :: 0 <= i < |ids| && p in DataOrEmpty(papersOf(ids[i]))
  {
    if ids == [] then [] else DataOrEmpty(papersOf(ids[0])) + AuthorPapers(ids[1..], papersOf)
  }

  /**
   * The chain keeps the order of the ids: the papers of a concatenation are
   * those of the first part, then those of the second.  First-wins
   * admission depends on this order.
   */
  lemma {:induction false} AuthorPapersAppend(a: seq<string>, b: seq<string>, papersOf: PapersOf)
    decreases |a|
    ensures AuthorPapers(a + b, papersOf) == AuthorPapers(a, papersOf) + AuthorPapers(b, papersOf)
  {
    if a == [] {
      assert a + b == b;
    } else {
      assert (a + b)[1..] == a[1..] + b;
      AuthorPapersAppend(a[1..], b, papersOf);
    }
  }

  /** One id contributes exactly the papers of its answer, in order. */
  lemma AuthorPapersOne(id: string, papersOf: PapersOf)
    ensures AuthorPapers([id], papersOf) == DataOrEmpty(papersOf(id))
  {
    assert [id][1..] == [];
  }

  /** The registry built by the `redo` branch of `main` from the matched seeds. */
  function Built(fold: string -> string, patterns: map<string, Pattern>, seeds: seq<Paper>,
                 withAuthors: bool, papersOf: PapersOf): (o: Option<Registry>)
    requires HasLists(seeds)
    ensures o.Some? ==> Dicts.Wf(o.value.papers) && KeysMatch(fold, o.value.papers)
  {
    match PlantSeeds(fold, Registry(Dicts.Empty(), patterns), seeds, 0)
    case None => None
    case Some(r) =>
      if withAuthors then AdmitAll(fold, r, AuthorPapers(AuthorIds(seeds), papersOf), 0) else Some(r)
  }

  /**
   * The registry holds exactly the keys the seeds bring in (their own and
   * their citing and cited papers') and, with `withAuthors`, the keys of the
   * papers of the seeds' authors.
   */
  lemma BuiltKeys(fold: string -> string, patterns: map<string, Pattern>, seeds: seq<Paper>,
                  withAuthors: bool, papersOf: PapersOf)
    requires HasLists(seeds) && Built(fold, patterns, seeds, withAuthors, papersOf).Some?
    ensures forall k :: k in Built(fold, patterns, seeds, withAuthors, papersOf).value.papers.entries <==>
              || ReachedFrom(fold, seeds, k, 0)
              || (withAuthors && TitledFrom(fold, AuthorPapers(AuthorIds(seeds), papersOf), k, 0))
  {
    var r0 := Registry(Dicts.Empty(), patterns);
    var r := PlantSeeds(fold, r0, seeds, 0).value;
    PlantSeedsKeys(fold, r0, seeds, 0);
    if withAuthors {
      AdmitAllKeys(fold, r, AuthorPapers(AuthorIds(seeds), papersOf), 0);
    }
  }

  /**
   * The fold never teaches `DOI` and never overwrites a pattern it started
   * with, and every matched seed ends up stored under its key.
   */
  lemma BuiltInvariants(fold: string -> string, patterns: map<string, Pattern>, seeds: seq<Paper>,
                        withAuthors: bool, papersOf: PapersOf)
    requires HasLists(seeds) && Built(fold, patterns, seeds, withAuthors, papersOf).Some?
    ensures var r := Built(fold, patterns, seeds, withAuthors, papersOf).value;
      && KeepsPatterns(patterns, r.patterns)
      && ("DOI" in r.patterns ==> "DOI" in patterns)
      && forall s :: s in seeds ==> Titles.Key(fold, s.title) in r.papers.entries
  {
    var r0 := Registry(Dicts.Empty(), patterns);
    var r := PlantSeeds(fold, r0, seeds, 0).value;
    var fin := Built(fold, patterns, seeds, withAuthors, papersOf).value;
    PlantSeedsKeepsPatterns(fold, r0, seeds, 0);
    PlantSeedsLastWins(fold, r0, seeds, 0);
    if withAuthors {
      AdmitAllKeepsPatterns(fold, r, AuthorPapers(AuthorIds(seeds), papersOf), 0);
    }
    assert Extends(r.papers, fin.papers);
    forall s | s in seeds ensures Titles.Key(fold, s.title) in fin.papers.entries {
      var i :| 0 <= i < |seeds| && seeds[i] == s;
      assert SeedStored(fold, seeds, i, r.papers.entries);
    }
  }
}
