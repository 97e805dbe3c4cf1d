/**
 * The stateful side of main.py: the `all_papers` and `url_patterns` dicts
 * as the fields of one object, and the loops of `search_func`,
 * `citations_func`/`references_func`, `main`'s registry fold, its pruning
 * loop and its closure passes as methods that update them in place.  Each
 * method is proved to leave exactly the state the functions of Building,
 * Expansion and Acquisition describe; the properties of those functions
 * are proved there.
 */
module Pipeline {
  import opened Wrappers
  import opened Records
  import Titles
  import Dicts
  import opened UrlPatterns
  import opened Expansion
  import opened Building
  import opened Acquisition
  import Authors

  /** The redo branch of `main` end to end: seed search, then the registry fold. */
  function Rebuilt(fold: string -> string, patterns: map<string, Pattern>, titles: seq<string>, search: Search,
                   api: Api, withAuthors: bool, papersOf: PapersOf): (o: Option<Registry>)
    ensures o.Some? ==> Dicts.Wf(o.value.papers) && KeysMatch(fold, o.value.papers)
  {
    match SearchAll(fold, patterns, titles, search, api, 0)
    case None => None
    case Some(Seeded(seeds, learned)) => Built(fold, learned, seeds, withAuthors, papersOf)
  }

  /**
   * A rebuilt registry holds exactly the keys the matched seeds bring in and,
   * with `withAuthors`, those of their authors' papers.
   */
  lemma RebuiltKeys(fold: string -> string, patterns: map<string, Pattern>, titles: seq<string>, search: Search,
                    api: Api, withAuthors: bool, papersOf: PapersOf)
    requires Rebuilt(fold, patterns, titles, search, api, withAuthors, papersOf).Some?
    ensures SearchAll(fold, patterns, titles, search, api, 0).Some?
    ensures forall k :: k in Rebuilt(fold, patterns, titles, search, api, withAuthors, papersOf).value.papers.entries <==>
              || ReachedFrom(fold, SearchAll(fold, patterns, titles, search, api, 0).value.seeds, k, 0)
              || (withAuthors &&
                  TitledFrom(fold, AuthorPapers(AuthorIds(SearchAll(fold, patterns, titles, search, api, 0).value.seeds),
                                                papersOf), k, 0))
  {
    var sd := SearchAll(fold, patterns, titles, search, api, 0).value;
    BuiltKeys(fold, sd.patterns, sd.seeds, withAuthors, papersOf);
  }

  /** `seeds` put in front of the seeds of `o`. */
  function Prefixed(seeds: seq<Paper>, o: Option<Seeded>): Option<Seeded> {
    match o
    case None => None
    case Some(Seeded(rest, pats)) => Some(Seeded(seeds + rest, pats))
  }

  lemma PrefixedStep(seeds: seq<Paper>, found: Option<Paper>, rest: Option<Seeded>)
    ensures Prefixed(seeds, Prepend(found, rest)) == Prefixed(seeds + (if found.Some? then [found.value] else []), rest)
  {
    if rest.Some? {
      var front: seq<Paper> := if found.Some? then [found.value] else [];
      assert seeds + (front + rest.value.seeds) == (seeds + front) + rest.value.seeds;
    }
  }

  /** Every stored citation and reference points at a registry key. */
  ghost predicate ClosedUnder(fold: string -> string, d: Dicts.Dict<Paper>) {
    && (forall k :: k in d.entries ==> EdgesOf(d.entries[k], Citations).Some? && EdgesOf(d.entries[k], References).Some?)
    && (forall k, e :: k in d.entries && e in EdgesOf(d.entries[k], Citations).value ==> RelatedKey(fold, e) in d.entries)
    && (forall k, e :: k in d.entries && e in EdgesOf(d.entries[k], References).value ==> RelatedKey(fold, e) in d.entries)
  }

  /** The loop body of one closure pass, entry by entry in registry order. */
  method ExpandEntries(fold: string -> string, d: Dicts.Dict<Paper>, rel: Relation, api: Api)
    returns (entries: map<string, Paper>)
    requires Dicts.Wf(d)
    ensures entries == map k | k in d.entries ::
              Expanded(fold, d.entries[k], rel, Some(d.entries.Keys), api(d.entries[k].paperId, rel))
  {
    entries := map[];
    for i := 0 to |d.order|
      invariant forall k :: k in entries <==> k in d.order[..i]
      invariant forall k :: k in entries ==>
                  entries[k] == Expanded(fold, d.entries[k], rel, Some(d.entries.Keys), api(d.entries[k].paperId, rel))
    {
      var k := d.order[i];
      assert d.order[..i + 1] == d.order[..i] + [k];
      var updated, _ := Expand(fold, d.entries[k], rel, Some(d.entries.Keys), api);
      entries := entries[k := updated];
    }
    assert d.order[..|d.order|] == d.order;
  }

  class Crawler {
    /** NFKC normalisation followed by `lower()`. */
    const fold: string -> string
    /** `all_papers`. */
    var papers: Dicts.Dict<Paper>
    /** `url_patterns`. */
    var patterns: map<string, Pattern>

    ghost predicate Valid()
      reads this
    {
      Dicts.Wf(papers)
    }

    /** The module-level state: `url_patterns.json` loaded or `{}`, and a registry (possibly loaded). */
    constructor (fold: string -> string, papers: Dicts.Dict<Paper>, patterns: map<string, Pattern>)
      requires Dicts.Wf(papers)
      ensures Valid()
      ensures this.fold == fold && this.papers == papers && this.patterns == patterns
    {
      this.fold := fold;
      this.papers := papers;
      this.patterns := patterns;
    }

    /**
     * The `for key, externalId in ...externalIds.items()` loop of
     * main.py:41-46 (`skipKnown` false) and main.py:135-140, 146-151,
     * 160-165 (`skipKnown` true), run only for a string PDF URL.
     */
    method Learn(p: Paper, skipKnown: bool) returns (raised: bool)
      modifies this`patterns
      ensures raised <==> LearnFrom(old(patterns), p, skipKnown).None?
      ensures !raised ==> patterns == LearnFrom(old(patterns), p, skipKnown).value
      ensures raised ==> patterns == old(patterns)
    {
      raised := false;
      if p.openAccessUrl.None? {
        return;
      }
      var url := p.openAccessUrl.value;
      if p.externalIds.None? {
        return true;
      }
      var ids := p.externalIds.value;
      for i := 0 to |ids|
        invariant patterns == old(patterns)
        invariant Scan(ids, url, patterns.Keys, skipKnown, i) == Scan(ids, url, patterns.Keys, skipKnown, 0)
      {
        var id := ids[i];
        if id.namespace == "DOI" {
          continue;
        }
        if skipKnown && id.namespace in patterns {
          continue;
        }
        if id.value == [] {
          return true;
        }
        var parts := Split(url, id.value);
        if |parts| == 2 {
          patterns := patterns[id.namespace := Pattern(parts[0], parts[1])];
          return;
        }
      }
    }

    /**
     * `search_func(seed_title)` (main.py:33-50) given the search response:
     * scan the first page for the seed's key, learn from the match, fetch
     * both lists, return early.
     */
    method Search(seedTitle: string, response: Response<seq<Paper>>, api: Api) returns (found: Option<Paper>, raised: bool)
      modifies this`patterns
      ensures raised <==> SearchOutcome(fold, old(patterns), seedTitle, response, api).SearchRaised?
      ensures !raised ==> SearchOutcome(fold, old(patterns), seedTitle, response, api) == Searched(found, patterns)
    {
      found, raised := None, false;
      if response.Ok? {
        var results := response.data;
        var key := Titles.Key(fold, seedTitle);
        for i := 0 to |results|
          invariant patterns == old(patterns)
          invariant FirstMatch(fold, seedTitle, results, i) == FirstMatch(fold, seedTitle, results, 0)
        {
          var paper := results[i];
          if Titles.Key(fold, paper.title) == key {
            raised := Learn(paper, false);
            if raised {
              return;
            }
            var withCitations, _ := Expand(fold, paper, Citations, None, api);
            var withBoth, _ := Expand(fold, withCitations, References, None, api);
            return Some(withBoth), false;
          }
        }
      }
    }

    /** `[d for d in pool.map(search_func, seed_titles) if d is not None]`, run in order. */
    method SearchSeeds(titles: seq<string>, search: Search, api: Api) returns (seeds: seq<Paper>, raised: bool)
      modifies this`patterns
      ensures raised <==> SearchAll(fold, old(patterns), titles, search, api, 0).None?
      ensures !raised ==> SearchAll(fold, old(patterns), titles, search, api, 0) == Some(Seeded(seeds, patterns))
    {
      seeds, raised := [], false;
      var all := SearchAll(fold, patterns, titles, search, api, 0);
      if all.Some? {
        assert [] + all.value.seeds == all.value.seeds;
      }
      for i := 0 to |titles|
        invariant Prefixed(seeds, SearchAll(fold, patterns, titles, search, api, i))
                  == SearchAll(fold, old(patterns), titles, search, api, 0)
      {
        ghost var before := patterns;
        var found;
        found, raised := Search(titles[i], search(titles[i]), api);
        if raised {
          return;
        }
        assert SearchAll(fold, before, titles, search, api, i) == Prepend(found, SearchAll(fold, patterns, titles, search, api, i + 1));
        PrefixedStep(seeds, found, SearchAll(fold, patterns, titles, search, api, i + 1));
        if found.Some? {
          seeds := seeds + [found.value];
        } else {
          assert seeds + [] == seeds;
        }
      }
      assert seeds + [] == seeds;
    }

    /** One admission (main.py:133-141 and its two twins): absent key only, learning first. */
    method AdmitPaper(p: Paper) returns (raised: bool)
      requires Valid()
      modifies this`papers, this`patterns
      ensures Valid()
      ensures raised <==> Admit(fold, Registry(old(papers), old(patterns)), p).None?
      ensures !raised ==> Admit(fold, Registry(old(papers), old(patterns)), p) == Some(Registry(papers, patterns))
    {
      var key := Titles.Key(fold, p.title);
      raised := false;
      if key !in papers.entries {
        raised := Learn(p, true);
        if raised {
          return;
        }
        papers := Dicts.Set(papers, key, p);
      }
    }

    /** Admission of a list of papers in order. */
    method AdmitEach(ps: seq<Paper>) returns (raised: bool)
      requires Valid()
      modifies this`papers, this`patterns
      ensures Valid()
      ensures raised <==> AdmitAll(fold, Registry(old(papers), old(patterns)), ps, 0).None?
      ensures !raised ==> AdmitAll(fold, Registry(old(papers), old(patterns)), ps, 0) == Some(Registry(papers, patterns))
    {
      raised := false;
      for i := 0 to |ps|
        invariant Valid()
        invariant AdmitAll(fold, Registry(papers, patterns), ps, i) == AdmitAll(fold, Registry(old(papers), old(patterns)), ps, 0)
      {
        raised := AdmitPaper(ps[i]);
        if raised {
          return;
        }
      }
    }

    /** One iteration of `for paper in papers` (main.py:128-152). */
    method PlantOne(s: Paper) returns (raised: bool)
      requires Valid() && s.citations.Some? && s.references.Some?
      modifies this`papers, this`patterns
      ensures Valid()
      ensures raised <==> PlantSeed(fold, Registry(old(papers), old(patterns)), s).None?
      ensures !raised ==> PlantSeed(fold, Registry(old(papers), old(patterns)), s) == Some(Registry(papers, patterns))
    {
      papers := Dicts.Set(papers, Titles.Key(fold, s.title), s);
      raised := AdmitEach(Related(s.citations.value));
      if raised {
        return;
      }
      raised := AdmitEach(Related(s.references.value));
    }

    /** The whole `for paper in papers` loop. */
    method PlantAll(seeds: seq<Paper>) returns (raised: bool)
      requires Valid() && HasLists(seeds)
      modifies this`papers, this`patterns
      ensures Valid()
      ensures raised <==> PlantSeeds(fold, Registry(old(papers), old(patterns)), seeds, 0).None?
      ensures !raised ==> PlantSeeds(fold, Registry(old(papers), old(patterns)), seeds, 0) == Some(Registry(papers, patterns))
    {
      raised := false;
      ghost var target := PlantSeeds(fold, Registry(papers, patterns), seeds, 0);
      for i := 0 to |seeds|
        invariant Valid()
        invariant PlantSeeds(fold, Registry(papers, patterns), seeds, i) == target
      {
        raised := PlantOne(seeds[i]);
        if raised {
          return;
        }
      }
    }

    /** The redo branch of `main` (main.py:122-166): a fresh registry from the seed titles. */
    method Build(titles: seq<string>, search: Search, api: Api, withAuthors: bool, papersOf: PapersOf)
      returns (raised: bool)
      modifies this`papers, this`patterns
      ensures raised <==> Rebuilt(fold, old(patterns), titles, search, api, withAuthors, papersOf).None?
      ensures !raised ==> Valid()
      ensures !raised ==> Rebuilt(fold, old(patterns), titles, search, api, withAuthors, papersOf) == Some(Registry(papers, patterns))
    {
      var seeds;
      seeds, raised := SearchSeeds(titles, search, api);
      if raised {
        return;
      }
      papers := Dicts.Empty();
      raised := PlantAll(seeds);
      if raised || !withAuthors {
        return;
      }
      raised := AdmitEach(AuthorPapers(AuthorIds(seeds), papersOf));
    }

    /** The pruning loop of main.py:197-199. */
    method Prune(keys: seq<Option<string>>)
      requires Valid()
      modifies this`papers
      ensures Valid()
      ensures papers == Pruned(old(papers), keys, 0)
    {
      for i := 0 to |keys|
        invariant Valid()
        invariant Pruned(papers, keys, i) == Pruned(old(papers), keys, 0)
      {
        var key := keys[i];
        if key.Some? && key.value in papers.entries {
          papers := Dicts.Del(papers, key.value);
        }
      }
    }

    /** The download phase of `main` (main.py:185-199): filter, download, prune. */
    method Acquire(crawled: Option<set<string>>, transport: Transport, files: set<string>) returns (after: set<string>)
      requires Valid()
      modifies this`papers
      ensures Valid()
      ensures var items := Pending(Dicts.Items(old(papers)), crawled);
        && papers == Pruned(old(papers), Outcomes(items, patterns, transport), 0)
        && after == DiskAfterAll(items, patterns, transport, files, 0)
    {
      var items := Pending(Dicts.Items(papers), crawled);
      var keys;
      keys, after := DownloadAll(items, patterns, transport, files);
      assert keys == Outcomes(items, patterns, transport);
      Prune(keys);
    }

    /** One closure pass (main.py:202 or 203): every entry filtered against the registry's keys. */
    method ClosePass(rel: Relation, api: Api)
      requires Valid()
      modifies this`papers
      ensures Valid()
      ensures papers == Closed(fold, old(papers), rel, api)
    {
      var entries := ExpandEntries(fold, papers, rel, api);
      papers := Dicts.Dict(papers.order, entries);
    }

    /** Both closure passes, citations first. */
    method Close(api: Api)
      requires Valid()
      modifies this`papers
      ensures Valid() && ClosedUnder(fold, papers)
      ensures papers == Closed(fold, Closed(fold, old(papers), Citations, api), References, api)
    {
      ghost var before := papers;
      ClosePass(Citations, api);
      ClosePass(References, api);
      ClosureIsClosed(fold, before, api);
    }

    /** The author index of main.py:209-213 over `all_papers.values()`. */
    method IndexAuthors() returns (authors: Dicts.Dict<Author>)
      requires Valid()
      ensures Dicts.Wf(authors)
      ensures authors == Authors.Indexed(Dicts.Empty(), Authors.AllAuthors(Dicts.Values(papers)))
    {
      authors := Authors.CollectAuthors(Dicts.Values(papers));
    }

    /**
     * The part of `main` after the registry is settled (main.py:185-213):
     * optionally download and prune, close under both relations, index the
     * authors.
     */
    method Finish(download: bool, crawled: Option<set<string>>, transport: Transport, files: set<string>, api: Api)
      returns (authors: Dicts.Dict<Author>, after: set<string>)
      requires Valid()
      modifies this`papers
      ensures Valid() && ClosedUnder(fold, papers)
      ensures papers.entries.Keys <= old(papers.entries.Keys)
      ensures !download ==> after == files && papers.entries.Keys == old(papers.entries.Keys)
      ensures var items := Pending(Dicts.Items(old(papers)), crawled);
        var pruned := if download then Pruned(old(papers), Outcomes(items, patterns, transport), 0) else old(papers);
        && papers == Closed(fold, Closed(fold, pruned, Citations, api), References, api)
        && after == (if download then DiskAfterAll(items, patterns, transport, files, 0) else files)
      ensures authors == Authors.Indexed(Dicts.Empty(), Authors.AllAuthors(Dicts.Values(papers)))
    {
      after := files;
      if download {
        after := Acquire(crawled, transport, files);
      }
      Close(api);
      authors := IndexAuthors();
    }

    /**
     * `main(args)`: rebuild the registry (`build`) or keep the loaded one,
     * optionally download and prune, close the registry under both
     * relations and index its authors.  Only the rebuild can raise.
     */
    method Run(build: bool, titles: seq<string>, search: Search, api: Api, withAuthors: bool, papersOf: PapersOf,
               download: bool, crawled: Option<set<string>>, transport: Transport, files: set<string>)
      returns (raised: bool, authors: Dicts.Dict<Author>, after: set<string>)
      requires build || Valid()
      modifies this`papers, this`patterns
      ensures raised <==> build && Rebuilt(fold, old(patterns), titles, search, api, withAuthors, papersOf).None?
      ensures !raised ==> Valid() && ClosedUnder(fold, papers)
      ensures !raised ==> (papers.entries.Keys <=
        if build then Rebuilt(fold, old(patterns), titles, search, api, withAuthors, papersOf).value.papers.entries.Keys
        else old(papers.entries.Keys))
      ensures !raised && !download ==> (after == files && papers.entries.Keys ==
        if build then Rebuilt(fold, old(patterns), titles, search, api, withAuthors, papersOf).value.papers.entries.Keys
        else old(papers.entries.Keys))
      ensures !raised ==> authors == Authors.Indexed(Dicts.Empty(), Authors.AllAuthors(Dicts.Values(papers)))
      ensures !raised ==>
        var b := if build then Rebuilt(fold, old(patterns), titles, search, api, withAuthors, papersOf).value
                 else Registry(old(papers), old(patterns));
        var items := Pending(Dicts.Items(b.papers), crawled);
        var pruned := if download then Pruned(b.papers, Outcomes(items, b.patterns, transport), 0) else b.papers;
        && patterns == b.patterns
        && papers == Closed(fold, Closed(fold, pruned, Citations, api), References, api)
        && after == (if download then DiskAfterAll(items, b.patterns, transport, files, 0) else files)
    {
      raised, authors, after := false, Dicts.Empty(), files;
      ghost var rebuilt := Rebuilt(fold, patterns, titles, search, api, withAuthors, papersOf);
      if build {
        raised := Build(titles, search, api, withAuthors, papersOf);
        if raised {
          return;
        }
        assert rebuilt == Some(Registry(papers, patterns));
      }
      ghost var b := Registry(papers, patterns);
      authors, after := Finish(download, crawled, transport, files, api);
      assert b == if build then rebuilt.value else Registry(old(papers), old(patterns));
    }
  }
}
