/**
 * The author index `main` writes last (main.py:208-213): every author of
 * every registry entry, keyed by `authorId`, later entries overwriting
 * earlier ones.
 */
module Authors {
  import opened Records
  import Dicts

  /** `[author for paper in papers for author in paper["authors"]]`. */
  function AllAuthors(papers: seq<Paper>): (r: seq<Author>)
    ensures forall p, a :: p in papers && a in p.authors ==> a in r
    ensures forall a :: a in r ==> exists p :: p in papers && a in p.authors
  {
    if papers == [] then [] else papers[0].authors + AllAuthors(papers[1..])
  }

  /**
   * The order is paper by paper, each paper's authors in their own order:
   * the authors of a concatenation are those of the first part, then those
   * of the second.
   */
  lemma {:induction false} AllAuthorsAppend(a: seq<Paper>, b: seq<Paper>)
    decreases |a|
    ensures AllAuthors(a + b) == AllAuthors(a) + AllAuthors(b)
  {
    if a == [] {
      assert a + b == b;
    } else {
      assert (a + b)[1..] == a[1..] + b;
      AllAuthorsAppend(a[1..], b);
    }
  }

  /** One paper contributes exactly its own authors. */
  lemma AllAuthorsOne(p: Paper)
    ensures AllAuthors([p]) == p.authors
  {
    assert [p][1..] == [];
  }

  /** Some author of `authors` has id `k`. */
  ghost predicate Lists(authors: seq<Author>, k: string) {
    exists a :: a in authors && a.authorId == k
  }

  lemma ListsStep(authors: seq<Author>)
    requires authors != []
    ensures forall k :: Lists(authors, k) <==> k == authors[0].authorId || Lists(authors[1..], k)
  {
    forall k | Lists(authors, k) ensures k == authors[0].authorId || Lists(authors[1..], k) {
      var a :| a in authors && a.authorId == k;
      if a != authors[0] {
        assert a in authors[1..];
      }
    }
  }

  /** `d[author["authorId"]] = author` for each author in turn. */
  function Indexed(d: Dicts.Dict<Author>, authors: seq<Author>): (r: Dicts.Dict<Author>)
    requires Dicts.Wf(d)
    decreases |authors|
    ensures Dicts.Wf(r)
    ensures |d.order| <= |r.order| && r.order[..|d.order|] == d.order
    ensures forall k :: k in r.entries <==> k in d.entries || Lists(authors, k)
  {
    if authors == [] then d
    else
      var d1 := Dicts.Set(d, authors[0].authorId, authors[0]);
      var r := Indexed(d1, authors[1..]);
      assert d1.order[..|d.order|] == d.order;
      assert r.order[..|d.order|] == r.order[..|d1.order|][..|d.order|];
      ListsStep(authors);
      r
  }

  /** Indexing a concatenation indexes one part after the other. */
  lemma {:induction false} IndexedAppend(d: Dicts.Dict<Author>, a: seq<Author>, b: seq<Author>)
    requires Dicts.Wf(d)
    decreases |a|
    ensures Indexed(d, a + b) == Indexed(Indexed(d, a), b)
  {
    if a != [] {
      assert (a + b)[1..] == a[1..] + b;
      IndexedAppend(Dicts.Set(d, a[0].authorId, a[0]), a[1..], b);
    } else {
      assert a + b == b;
    }
  }

  /**
   * Last write wins: an author is stored under its id exactly when no later
   * author shares that id.
   */
  lemma {:induction false} LastWins(d: Dicts.Dict<Author>, authors: seq<Author>, i: nat)
    requires Dicts.Wf(d) && i < |authors|
    requires forall j :: i < j < |authors| ==> authors[j].authorId != authors[i].authorId
    decreases |authors|
    ensures Indexed(d, authors).entries[authors[i].authorId] == authors[i]
  {
    var d1 := Dicts.Set(d, authors[0].authorId, authors[0]);
    if i == 0 {
      Untouched(d1, authors[1..], authors[0].authorId);
    } else {
      forall j | i - 1 < j < |authors[1..]|
        ensures authors[1..][j].authorId != authors[1..][i - 1].authorId
      {
        assert authors[1..][j] == authors[j + 1];
      }
      LastWins(d1, authors[1..], i - 1);
    }
  }

  /** A key no author carries keeps its entry. */
  lemma {:induction false} Untouched(d: Dicts.Dict<Author>, authors: seq<Author>, k: string)
    requires Dicts.Wf(d) && k in d.entries
    requires forall j :: 0 <= j < |authors| ==> authors[j].authorId != k
    decreases |authors|
    ensures Indexed(d, authors).entries[k] == d.entries[k]
  {
    if authors != [] {
      Untouched(Dicts.Set(d, authors[0].authorId, authors[0]), authors[1..], k);
    }
  }

  /** The loop of main.py:211-213 over `all_papers.values()`. */
  method CollectAuthors(papers: seq<Paper>) returns (authors: Dicts.Dict<Author>)
    ensures Dicts.Wf(authors)
    ensures authors == Indexed(Dicts.Empty(), AllAuthors(papers))
  {
    authors := Dicts.Empty();
    for i := 0 to |papers|
      invariant Dicts.Wf(authors)
      invariant Indexed(authors, AllAuthors(papers[i..])) == Indexed(Dicts.Empty(), AllAuthors(papers))
    {
      var listed := papers[i].authors;
      assert papers[i..][1..] == papers[i + 1..];
      IndexedAppend(authors, listed, AllAuthors(papers[i + 1..]));
      for j := 0 to |listed|
        invariant Dicts.Wf(authors)
        invariant Indexed(Indexed(authors, listed[j..]), AllAuthors(papers[i + 1..]))
                  == Indexed(Dicts.Empty(), AllAuthors(papers))
      {
        assert listed[j..][1..] == listed[j + 1..];
        authors := Dicts.Set(authors, listed[j].authorId, listed[j]);
      }
    }
  }
}
