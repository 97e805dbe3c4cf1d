/**
 * `citations_func` and `references_func` (main.py:52-80): fetch a paper's
 * citation or reference list once, and optionally keep only the edges whose
 * related paper is already a registry key.  The two functions differ only in
 * the field (`citations`/`references`) and the related-paper key
 * (`citingPaper`/`citedPaper`); `Relation` selects between them.
 */
module Expansion {
  import opened Wrappers
  import opened Records
  import Titles
  import Seqs
  import Dicts

  /** The metadata API's `/paper/{paperId}/citations` and `/references` endpoints. */
  type Api = (string, Relation) -> Response<seq<Edge>>

  function EdgesOf(p: Paper, rel: Relation): Option<seq<Edge>> {
    match rel
    case Citations => p.citations
    case References => p.references
  }

  function WithEdges(p: Paper, rel: Relation, edges: seq<Edge>): Paper {
    match rel
    case Citations => p.(citations := Some(edges))
    case References => p.(references := Some(edges))
  }

  function Other(rel: Relation): Relation {
    match rel
    case Citations => References
    case References => Citations
  }

  /** `q` is `p` except, possibly, for the list `rel` selects. */
  predicate SameExcept(p: Paper, q: Paper, rel: Relation) {
    && q.paperId == p.paperId && q.title == p.title && q.venue == p.venue
    && q.fieldsOfStudy == p.fieldsOfStudy && q.externalIds == p.externalIds
    && q.openAccessUrl == p.openAccessUrl && q.authors == p.authors
    && EdgesOf(q, Other(rel)) == EdgesOf(p, Other(rel))
  }

  /** The registry key of an edge's related paper. */
  function RelatedKey(fold: string -> string, e: Edge): string {
    Titles.Key(fold, e.related.title)
  }

  /** The closure filter's comprehension (main.py:62, 77). */
  function KeepKnown(fold: string -> string, edges: seq<Edge>, keys: set<string>): (r: seq<Edge>)
    ensures Seqs.IsSubsequence(r, edges)
    ensures forall e :: e in r <==> e in edges && RelatedKey(fold, e) in keys
  {
    Seqs.Filter(edges, e => RelatedKey(fold, e) in keys)
  }

  /** A kept edge keeps its multiplicity (duplicates survive); a dropped one is gone. */
  lemma KeepKnownCounts(fold: string -> string, edges: seq<Edge>, keys: set<string>)
    ensures forall e :: multiset(KeepKnown(fold, edges, keys))[e] ==
              if RelatedKey(fold, e) in keys then multiset(edges)[e] else 0
  {
    Seqs.FilterCounts(edges, e => RelatedKey(fold, e) in keys);
  }

  /** The list the function works on: the stored one, else the fetched one. */
  function Base(p: Paper, rel: Relation, response: Response<seq<Edge>>): seq<Edge> {
    match EdgesOf(p, rel)
    case Some(edges) => edges
    case None => DataOrEmpty(response)
  }

  /**
   * The paper `citations_func`/`references_func` return.  `response` is what
   * the API would answer; it is only consulted when the field is absent.
   * `registry` is the key set of the `all_papers` argument, if one is passed.
   */
  function Expanded(fold: string -> string, p: Paper, rel: Relation, registry: Option<set<string>>,
                    response: Response<seq<Edge>>): (r: Paper)
    ensures SameExcept(p, r, rel) && EdgesOf(r, rel).Some?
    ensures EdgesOf(p, rel).Some? && registry.None? ==> r == p
    ensures EdgesOf(p, rel).None? && response.NotOk? && registry.None? ==> EdgesOf(r, rel) == Some([])
    ensures registry.None? ==> EdgesOf(r, rel) == Some(Base(p, rel, response))
    ensures registry.Some? ==> EdgesOf(r, rel) == Some(KeepKnown(fold, Base(p, rel, response), registry.value))
    ensures Seqs.IsSubsequence(EdgesOf(r, rel).value, Base(p, rel, response))
    ensures registry.Some? ==> forall e :: e in EdgesOf(r, rel).value <==>
              e in Base(p, rel, response) && RelatedKey(fold, e) in registry.value
  {
    var base := Base(p, rel, response);
    var edges := if registry.Some? then KeepKnown(fold, base, registry.value) else base;
    assert registry.None? ==> Seqs.IsSubsequence(edges, base) by {
      if registry.None? { Seqs.SubsequenceRefl(base); }
    }
    WithEdges(p, rel, edges)
  }

  /**
   * Once a list is present it is never fetched again: the response does not
   * matter, and expanding an expanded paper with the same registry changes
   * nothing.
   */
  lemma ExpandedIdempotent(fold: string -> string, p: Paper, rel: Relation, registry: Option<set<string>>,
                           response: Response<seq<Edge>>, other: Response<seq<Edge>>)
    ensures var q := Expanded(fold, p, rel, registry, response);
      Expanded(fold, q, rel, registry, other) == q
  {
    var q := Expanded(fold, p, rel, registry, response);
    if registry.Some? {
      Seqs.FilterIdempotent(Base(p, rel, response), e => RelatedKey(fold, e) in registry.value);
      var edges := EdgesOf(q, rel).value;
      assert Base(q, rel, other) == edges;
      assert KeepKnown(fold, edges, registry.value) == edges;
      match rel
      case Citations => assert WithEdges(q, rel, edges) == q;
      case References => assert WithEdges(q, rel, edges) == q;
    }
  }

  /**
   * `citations_func(paper, paper_key, all_papers)` and its `references_func`
   * twin, updating the paper step by step as the source does.  `fetched`
   * says whether the API was called.
   */
  method Expand(fold: string -> string, paper: Paper, rel: Relation, registry: Option<set<string>>, api: Api)
    returns (updated: Paper, fetched: bool)
    ensures fetched <==> EdgesOf(paper, rel).None?
    ensures updated == Expanded(fold, paper, rel, registry, api(paper.paperId, rel))
  {
    updated := paper;
    fetched := false;
    if EdgesOf(updated, rel).None? {
      var response := api(paper.paperId, rel);
      fetched := true;
      match response
      case Ok(data) => updated := WithEdges(updated, rel, data);
      case NotOk => updated := WithEdges(updated, rel, []);
    }
    if registry.Some? {
      updated := WithEdges(updated, rel, KeepKnown(fold, EdgesOf(updated, rel).value, registry.value));
    }
  }

  /**
   * One closure pass over the registry (main.py:202 or 203): every entry is
   * expanded against the registry's own key set; keys and order are kept.
   */
  function Closed(fold: string -> string, d: Dicts.Dict<Paper>, rel: Relation, api: Api): (r: Dicts.Dict<Paper>)
    requires Dicts.Wf(d)
    ensures Dicts.Wf(r) && r.order == d.order && r.entries.Keys == d.entries.Keys
    ensures forall k :: k in r.entries ==> SameExcept(d.entries[k], r.entries[k], rel) && EdgesOf(r.entries[k], rel).Some?
    ensures forall k :: k in r.entries ==>
              r.entries[k] == Expanded(fold, d.entries[k], rel, Some(d.entries.Keys), api(d.entries[k].paperId, rel))
    ensures forall k, e :: k in r.entries && e in EdgesOf(r.entries[k], rel).value ==> RelatedKey(fold, e) in d.entries
    ensures forall k, e :: && k in r.entries && e in Base(d.entries[k], rel, api(d.entries[k].paperId, rel))
                           && RelatedKey(fold, e) in d.entries
                           ==> e in EdgesOf(r.entries[k], rel).value
    ensures forall k, e :: k in r.entries && e in EdgesOf(r.entries[k], rel).value ==>
              e in Base(d.entries[k], rel, api(d.entries[k].paperId, rel))
  {
    Dicts.Dict(d.order, map k | k in d.entries ::
      Expanded(fold, d.entries[k], rel, Some(d.entries.Keys), api(d.entries[k].paperId, rel)))
  }

  /**
   * After both passes every stored citation and every stored reference
   * points at a paper whose key is in the registry, and the registry still
   * has the same keys in the same order.
   */
  lemma ClosureIsClosed(fold: string -> string, d: Dicts.Dict<Paper>, api: Api)
    requires Dicts.Wf(d)
    ensures var r := Closed(fold, Closed(fold, d, Citations, api), References, api);
      && r.order == d.order && r.entries.Keys == d.entries.Keys
      && (forall k :: k in r.entries ==> EdgesOf(r.entries[k], Citations).Some? && EdgesOf(r.entries[k], References).Some?)
      && (forall k, e :: k in r.entries && e in EdgesOf(r.entries[k], Citations).value ==> RelatedKey(fold, e) in r.entries)
      && (forall k, e :: k in r.entries && e in EdgesOf(r.entries[k], References).value ==> RelatedKey(fold, e) in r.entries)
  {
    var c := Closed(fold, d, Citations, api);
    var r := Closed(fold, c, References, api);
    forall k, e | k in r.entries && e in EdgesOf(r.entries[k], Citations).value
      ensures RelatedKey(fold, e) in r.entries
    {
      assert SameExcept(c.entries[k], r.entries[k], References);
      assert EdgesOf(r.entries[k], Citations) == EdgesOf(c.entries[k], Citations);
    }
  }

  /**
   * Conversely, the two passes drop no edge of a stored or fetched list
   * whose related paper is in the registry.
   */
  lemma ClosureKeepsKnownEdges(fold: string -> string, d: Dicts.Dict<Paper>, api: Api, k: string, e: Edge)
    requires Dicts.Wf(d) && k in d.entries && RelatedKey(fold, e) in d.entries
    ensures var r := Closed(fold, Closed(fold, d, Citations, api), References, api);
      e in Base(d.entries[k], Citations, api(d.entries[k].paperId, Citations)) ==> e in EdgesOf(r.entries[k], Citations).value
    ensures var r := Closed(fold, Closed(fold, d, Citations, api), References, api);
      e in Base(d.entries[k], References, api(d.entries[k].paperId, References)) ==> e in EdgesOf(r.entries[k], References).value
  {
    var c := Closed(fold, d, Citations, api);
    var r := Closed(fold, c, References, api);
    assert SameExcept(c.entries[k], r.entries[k], References);
    assert EdgesOf(r.entries[k], Citations) == EdgesOf(c.entries[k], Citations);
    assert SameExcept(d.entries[k], c.entries[k], Citations);
    assert Base(c.entries[k], References, api(c.entries[k].paperId, References))
        == Base(d.entries[k], References, api(d.entries[k].paperId, References));
  }
}
