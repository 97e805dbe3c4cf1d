# paper_retriever core, in Dafny

A model of `main.py`, the single script of paper_retriever. It builds a deduplicated registry of paper metadata from a list of seed titles, learns PDF URL templates per identifier namespace ("url patterns"), downloads PDFs with fallback across candidate URLs, prunes failed entries, closes the citation graph over the registry and derives an author index.

The model follows the script's own split between expressions and loops:

- **Titles** (`titles.dfy`): the dedup key `sub("[^a-z0-9]+", "_", normalize("NFKC", t).lower())`. NFKC and `lower()` are one uninterpreted function `fold`. The regular-expression collapse is modelled exactly.
- **UrlPatterns** (`url_patterns.dfy`): Python's left-to-right, non-overlapping `str.split`, the `len(...) == 2` inference test, and the `for key, externalId in ...items()` scan with its `DOI` skip, optional known-namespace skip and `break`.
- **Expansion** (`expansion.dfy`): `citations_func` / `references_func`, meaning a cached fetch plus the optional closure filter, and one closure pass over the registry.
- **Building** (`building.dfy`): `search_func` and the registry fold of `main` as functions. Seeds overwrite; citations, references and author papers are first-wins.
- **Acquisition** (`acquisition.dfy`): the candidate URL list of `download_func`, its first-success loop, the crawled filter, pruning, and resumption.
- **Authors** (`authors.dfy`): the last-wins author index.
- **Pipeline** (`pipeline.dfy`): a `Crawler` class whose fields are `all_papers` and `url_patterns`. Its methods are the script's loops, each updating those fields in place, and each is proved to leave exactly the state the functions above describe.
- **Dicts**, **Seqs**, **Records**, **Wrappers**: Python dicts with insertion order, order-preserving filtering, the JSON records, and `Option`.

The HTTP API, the search endpoint, the author-papers endpoint and the download transport are function-typed parameters (oracles). An exception that would end the run is modelled as an explicit outcome (`Raised`, `SearchRaised`, `None`, or `raised == true`). Two inputs raise:

- an empty identifier given to `split` (`ValueError`);
- `.items()` on a missing or null `externalIds` of a paper that has a string PDF URL.

Behaviour of `main.py` worth knowing:

- Inference succeeds when `url.split(id)` has two parts. Splitting is non-overlapping, so this is not "exactly one occurrence": `"aaa".split("aa") == ["", "a"]` (`UrlPatterns.OverlappingOccurrencesStillInfer`).
- Patterns are not write-once: `search_func` overwrites an existing namespace (main.py:45). Only `main`'s loops skip known namespaces (main.py:138).
- Keys of titles that differ only in punctuation can differ. A trailing punctuation run survives as `_`, so `Collapse("foo-bar!") == "foo_bar_"` while `Collapse("foo bar") == "foo_bar"`.
- Partial files of failed candidates are not cleaned up. A failed entry can leave a partial file under its canonical name (`Acquisition.FailureMayLeaveCanonicalFile`).
- Author ids are not deduplicated before the author-papers fetch (main.py:155).
- A malformed record makes the run raise instead of degrading.

## Model

| member | source | states |
|---|---|---|
| Titles.Collapse | main.py:37 | the substitution yields a key (only `a-z`, `0-9`, `_`, never `__`), is no longer than its input, is empty iff the input is, and starts with the input's first character or `_` |
| Titles.Key | main.py:37 | a dedup key contains only `a-z`, `0-9` and `_`, never two `_` in a row, is no longer than the folded title and is empty only when it is; `KeyIdempotent` and `RunsAreInterchangeable` state which titles share a key |
| Titles.CollapseFixesKeys | main.py:37 | the substitution leaves every string of key shape unchanged |
| Titles.CollapseIdempotent | main.py:37 | applying the substitution twice equals applying it once |
| Titles.KeyIdempotent | main.py:37 | the key of a key is the key itself whenever NFKC and `lower()` leave the key unchanged |
| Titles.RunsAreInterchangeable | main.py:37 | any two maximal runs of non-key characters collapse alike, so titles differing only inside such a run share a key |
| Titles.TrailingRunKept | main.py:37 | a trailing punctuation run survives as `_`: `foo-bar!` collapses to `foo_bar_` |
| Titles.NoTrailingRun | main.py:37 | `foo bar` collapses to `foo_bar`, a different key from `foo-bar!` |
| UrlPatterns.Find | main.py:44 | the first position where the separator occurs, or no occurrence at all |
| UrlPatterns.Split | main.py:44 | `str.split` with a non-empty separator: at least one part, the parts joined by the separator give back the string, no part contains the separator, there is one part iff the separator does not occur, and otherwise the first part ends at its first occurrence |
| UrlPatterns.SplitCutsAtFirstOccurrences | main.py:44 | every part but the last ends exactly where the separator first occurs in the remainder of the string, so the cuts are the left-to-right non-overlapping occurrences |
| UrlPatterns.Infer | main.py:44-45 | an empty identifier raises; a learned `(prefix, suffix)` rebuilds the URL as `prefix + id + suffix` (`Rebuild`, main.py:97) |
| UrlPatterns.InferIff | main.py:44-45 | inference yields `(a, b)` iff the identifier is non-empty, `url == a + id + b`, the first occurrence starts right after `a`, and `b` contains no occurrence |
| UrlPatterns.UniqueOccurrenceInfers | main.py:44 | an identifier occurring exactly once always yields a pattern |
| UrlPatterns.OverlappingOccurrencesStillInfer | main.py:44 | `"aa"` occurs twice in `"aaa"`, yet inference succeeds with `("", "a")` |
| UrlPatterns.Scan | main.py:41-46 | the scan stops at the first tried identifier that yields a pattern; every tried identifier before the stop yields none (`NoPatternBetween`), and with no stop none of them does; an identifier is tried (`Tried`) iff it is not `DOI` and, in `main`'s loops, its namespace is not known; a raise happens at the first tried empty identifier |
| UrlPatterns.LearnFrom | main.py:41-46 | a paper without a string PDF URL changes nothing; one with a URL but no identifier map raises; a raise needs a URL; no pattern is ever removed; with both present, the result raises iff the scan raises, adds exactly the scanned pattern under its identifier's namespace when it learns one, and is unchanged otherwise |
| UrlPatterns.LearnFromChanges | main.py:135-140 | one paper teaches at most one namespace, never `DOI`, removes no pattern, overwrites none in `main`'s loops, and the taught pattern rebuilds the paper's URL from its own identifier |
| Seqs.Filter | main.py:62 | a list comprehension with `if` keeps an order-preserving subsequence holding exactly the elements that pass the test |
| Seqs.FilterCounts | main.py:62 | the comprehension keeps every passing element as often as it occurs, and drops every failing one |
| Seqs.FilterIdempotent | main.py:62 | filtering twice with the same test equals filtering once |
| Seqs.FilterNone | main.py:190 | a filter that passes nothing yields the empty list |
| Dicts.Empty | main.py:126 | `{}` has no keys |
| Dicts.Set | main.py:130 | `d[k] = v` updates the map at `k` only; an existing key keeps its place, a new one goes last |
| Dicts.Del | main.py:199 | `del d[k]` removes exactly `k`; the other keys keep their order |
| Dicts.Items | main.py:186 | `items()` enumerates every key with its value in insertion order |
| Dicts.Values | main.py:211 | `values()` enumerates the values in insertion order |
| Expansion.KeepKnown | main.py:62 | the closure filter keeps, in order, exactly the edges whose related paper's key is a registry key |
| Expansion.KeepKnownCounts | main.py:62 | the closure filter keeps duplicate edges: a kept edge occurs as often as before, a dropped one not at all |
| Expansion.Expanded | main.py:52-66 | only the selected list changes; a present list is not refetched; without a registry the list is the stored one, else the fetched one, else `[]` on a non-200 status (`Base`, with `DataOrEmpty` of main.py:57-60); with a registry it is exactly `KeepKnown` of that list, the edges whose related key (`RelatedKey`, main.py:62) is registered, in order |
| Expansion.ExpandedIdempotent | main.py:53-55 | expanding an expanded paper again, with any API answer, changes nothing |
| Expansion.Expand | main.py:52-66 | the function updating the paper field by field fetches iff the list is absent and returns the paper `Expanded` describes |
| Expansion.Closed | main.py:202 | a closure pass keeps keys and order, and every entry becomes exactly its `Expanded` form against the registry's keys and the API's answer; so every kept edge comes from the entry's stored or fetched list and points at a registry key, and every edge of that list whose key is registered is kept |
| Expansion.ClosureIsClosed | main.py:202-203 | after both passes every stored citation and reference points at a key of the registry, whose keys and order are unchanged |
| Expansion.ClosureKeepsKnownEdges | main.py:202-203 | after both passes no edge of an entry's stored or fetched list whose related paper is a registry key has been dropped |
| Building.FirstMatch | main.py:38-39 | the first result whose key equals the seed's key; no earlier result matches |
| Building.WithBothLists | main.py:47-48 | the returned seed's lists are the stored ones, or else the API's answers (`[]` on a non-200 status); every other field is unchanged |
| Building.SearchOutcome | main.py:33-50 | a non-200 status gives nothing and changes no pattern; no match changes no pattern; a returned paper is the FIRST result whose key equals the seed's key, with both lists fetched, and its patterns are what learning from it (with overwriting) gives; the search raises only when a first match exists, and then iff learning from it raises |
| Building.SearchFindsOnlyMatches | main.py:33-50 | `search_func` returns a paper iff the status is 200 and some result's key equals the seed's key, and the returned paper has that key |
| Building.SearchAll | main.py:123 | at most one seed per title; every seed is, for some title, the first result of that title's search with the title's key (`MatchOf`), with both lists fetched |
| Building.SearchAllInTitleOrder | main.py:123 | the seeds follow the titles' order: there are as many seeds as matched titles (`MatchedTitlesCount`), matched title indices strictly increase (`MatchedTitlesIncrease`), and the i-th seed is the first match of the i-th matched title (`SeedsMatchTheirTitles`) |
| Building.Admit | main.py:133-141 | an admission keeps every existing entry unchanged (see `AdmitLearns` for what it adds) |
| Building.AdmitLearns | main.py:133-141 | a present key leaves the registry as it is; otherwise the admission raises iff learning from the paper without overwriting raises, and else stores the paper under its key and takes the learned patterns |
| Building.AdmitAll | main.py:132-141 | admitting a list keeps every existing entry and keeps every key equal to its entry's key |
| Building.AdmitAllFirstWins | main.py:133-141 | a new key appears iff some admitted paper has it, and then holds the first such paper |
| Building.AdmitAllKeys | main.py:132-141 | after admitting a list the registry keys are exactly the old keys plus the title keys of the admitted papers |
| Building.AdmitAllKeepsPatterns | main.py:135-140 | admission never changes or removes a known pattern and never teaches `DOI` |
| Building.AdmitLearnsAtMostOne | main.py:135-140 | one admission teaches at most one namespace, never `DOI` |
| Building.Related | main.py:132 | the related papers of a list of edges, in order |
| Building.PlantSeed | main.py:128-152 | one seed iteration keeps every key equal to its entry's key, stores the seed under its own key, and its keys are exactly the old keys plus the seed's key and the title keys of the seed's citing and cited papers |
| Building.PlantSeeds | main.py:128-152 | the seed loop keeps every key equal to its entry's key, and its keys are exactly the old keys plus those some seed reaches (its own, its citing and its cited papers' title keys) |
| Building.PlantSeedsKeys | main.py:128-152 | the keys after the seed loop are exactly the old keys plus those reached by some seed |
| Building.PlantSeedsLastWins | main.py:130 | every seed's key ends up holding the last seed with that key; an entry no later seed names is kept |
| Building.PlantSeedsKeepsPatterns | main.py:128-152 | the seed loop never changes a known pattern and never teaches `DOI` |
| Building.Built | main.py:122-166 | the built registry is a well-formed dict whose every key is its entry's title key |
| Building.BuiltKeys | main.py:122-166 | the built registry has exactly the keys some seed reaches, plus, when authors are fetched, the title keys of the author papers |
| Building.BuiltInvariants | main.py:122-166 | the fold keeps the starting patterns, never teaches `DOI`, and stores every matched seed under its key |
| Building.AuthorIds | main.py:155 | the author ids of the seeds, one per author in `AllAuthors` order |
| Building.AuthorPapers | main.py:157 | the chained author papers are exactly the papers of the 200 answers for the listed ids (`DataOrEmpty`, main.py:86-88) |
| Building.AuthorPapersAppend | main.py:157 | the chain is taken id by id: the papers for two lists of ids are the first list's, then the second's |
| Building.AuthorPapersOne | main.py:157 | one id contributes exactly the data of its 200 answer, or nothing |
| Acquisition.KnownIds | main.py:97 | exactly the identifiers whose namespace has a pattern, as a subsequence of `externalIds` (so in its order) |
| Acquisition.IdCandidates | main.py:97 | no more identifier candidates than identifiers |
| Acquisition.IdCandidatesFollowKnownIds | main.py:97 | the j-th identifier candidate is tagged `_` + namespace of the j-th identifier with a pattern, with URL prefix + id + suffix |
| Acquisition.Candidates | main.py:93-97 | the own URL, when present, is the first candidate, untagged; no URL and no identifiers give no candidate (see `CandidatesShape` for the rest) |
| Acquisition.CandidatesShape | main.py:93-97 | the own URL comes first untagged, only if it is a string; then the identifier candidates in `externalIds` order; at most 1 + \|externalIds\| candidates |
| Acquisition.TagsDistinct | main.py:97 | with distinct namespaces no two candidates share an output file |
| Acquisition.FirstFetched | main.py:98-114 | the first candidate the transport fetches; every earlier one failed |
| Acquisition.Outcome | main.py:98-117 | the result is `None` or the entry's own key (see `OutcomeIff` for which) |
| Acquisition.Attempted | main.py:98-117 | the attempts are a prefix of the candidates (see `OutcomeIff` for where it ends) |
| Acquisition.DiskAfter | main.py:98-117 | a file appears only under the canonical name (`PdfPath`, main.py:92) or as an attempt's output, and disappears only as an attempt's output |
| Acquisition.OutcomeIff | main.py:98-117 | the key is returned iff every candidate failed (including none at all); the attempts are a prefix of the candidates ending at the first success |
| Acquisition.NoCandidateFails | main.py:93-117 | a paper with no candidate fails without attempting anything or touching a file |
| Acquisition.SuccessLeavesCanonicalFile | main.py:112 | a successful entry has its file under the canonical name |
| Acquisition.FailureMayLeaveCanonicalFile | main.py:103-117 | a failed entry whose own URL left a partial file keeps it under the canonical name |
| Acquisition.TryInOrder | main.py:98-117 | the loop stops at the first fetched candidate, having tried exactly the candidates up to it; its file moves to the canonical name and partial files of earlier failures stay; with no success every candidate is tried |
| Acquisition.Download | main.py:90-117 | the loop returns `Outcome`, tries exactly `Attempted` and leaves the directory as `DiskAfter` |
| Acquisition.Pending | main.py:186-190 | the download list is the items, in order, whose key is not in the crawled set |
| Acquisition.DownloadAll | main.py:196 | one result per pending entry, in input order, each the entry's outcome; the directory is left as the downloads one after another leave it (`DiskAfterAll`) |
| Acquisition.Outcomes | main.py:196 | the results of a pass in input order |
| Acquisition.Pruned | main.py:197-199 | after pruning the registry is the original minus exactly the returned keys; `None` removes nothing; other entries are unchanged and keep their order |
| Acquisition.SurvivorsSucceeded | main.py:197-199 | after a full pass every remaining key downloaded successfully |
| Acquisition.ResumeAfterFullPass | main.py:186-199 | with the successful keys as crawled set, a re-run after a full pass and pruning has nothing left to download |
| Authors.AllAuthors | main.py:211-212 | every author of every paper is listed, and only those |
| Authors.AllAuthorsAppend | main.py:211-212 | authors are listed paper by paper: those of a concatenation are the first part's, then the second's |
| Authors.AllAuthorsOne | main.py:211-212 | one paper contributes exactly its own authors, in their order |
| Authors.Indexed | main.py:211-213 | the index has exactly the old keys plus the ids of the listed authors; keys already present keep their place |
| Authors.IndexedAppend | main.py:211-213 | indexing two lists one after the other equals indexing their concatenation |
| Authors.LastWins | main.py:213 | an id holds the last author listed with that id |
| Authors.Untouched | main.py:213 | an id no listed author carries keeps its entry |
| Authors.CollectAuthors | main.py:209-213 | the nested loop builds exactly the last-wins index of all authors |
| Pipeline.Rebuilt | main.py:122-166 | the rebuilt registry is a well-formed dict whose every key is its entry's title key |
| Pipeline.RebuiltKeys | main.py:122-166 | a rebuild that does not raise searched every title without raising, and its keys are exactly those some found seed reaches, plus, when authors are fetched, the title keys of the author papers |
| Pipeline.Crawler.constructor | main.py:27-31 | the starting state is the loaded registry and patterns |
| Pipeline.Crawler.Learn | main.py:40-46 | the scan updates `url_patterns` exactly as the learning function says, and leaves it unchanged when it raises |
| Pipeline.Crawler.Search | main.py:33-50 | `search_func` returns, raises and updates `url_patterns` exactly as the search outcome says |
| Pipeline.Crawler.SearchSeeds | main.py:123 | the seed search yields exactly the non-`None` matches in seed order and the patterns the searches leave |
| Pipeline.Crawler.AdmitPaper | main.py:133-141 | one admission updates both dicts as the admission function says |
| Pipeline.Crawler.AdmitEach | main.py:132-141 | the admission loop updates both dicts as the first-wins fold says |
| Pipeline.Crawler.PlantOne | main.py:128-152 | one seed iteration updates both dicts as the seed function says |
| Pipeline.Crawler.PlantAll | main.py:128-152 | the seed loop updates both dicts as the seed fold says |
| Pipeline.Crawler.Build | main.py:122-166 | the redo branch raises iff the rebuild does, and otherwise leaves exactly the rebuilt registry and patterns |
| Pipeline.Crawler.Prune | main.py:197-199 | the deletion loop leaves exactly the pruned registry |
| Pipeline.Crawler.Acquire | main.py:185-199 | the download phase leaves the registry pruned by the pass's outcomes and the directory as the pass leaves it |
| Pipeline.Crawler.ClosePass | main.py:202 | one closure pass replaces the registry by its closed form |
| Pipeline.ExpandEntries | main.py:202 | the loop over the registry leaves every entry as its `Expanded` form against the registry's keys |
| Pipeline.Crawler.Close | main.py:202-203 | after both passes every stored edge points at a registry key |
| Pipeline.Crawler.IndexAuthors | main.py:209-213 | the author index is the last-wins index of the registry's authors |
| Pipeline.Crawler.Finish | main.py:185-213 | after the registry is settled: the registry becomes its pruned form (when downloading) closed under both relations, the directory is as the downloads leave it, and the author index is the last-wins index of the result |
| Pipeline.Crawler.Run | main.py:120-214 | only a rebuild can raise; otherwise, with the registry and patterns settled (rebuilt, or as loaded), the final patterns are the settled ones, the final registry is the settled one pruned by the download outcomes (when downloading) and then closed under citations and then references, the directory is as the downloads leave it, keys are a subset of the settled keys (equal without download), and the author index is the last-wins index of its authors |

## Left out

- HTTP requests and JSON decoding (main.py:35, 56, 71, 85): the search, citations/references and author-papers endpoints are oracle parameters returning `Ok(data)` or `NotOk`.
- File I/O: loading `headers.json`, `seed_titles.json` and `url_patterns.json`, dumping and reloading the registries, and reading the crawled file. Dumping then reloading `all_papers.json` is taken to give back the same dict, and the crawled set is a parameter.
- `wget`, the `tsocks` retry and `-c` resumption (main.py:101-109) are one transport oracle per candidate, answering fetched or failed (possibly leaving a partial file). A failing `os.replace` is not modelled, and directory creation is omitted.
- `multiprocessing.Pool`: every `map`/`starmap` is a sequential map collecting results in input order. Writes to `url_patterns` inside `search_func` workers (main.py:45) are treated as reaching the parent, in order; in Python each worker writes its own copy. The download workers (main.py:196) are the same pool's processes, forked at main.py:121. Each sees the loaded table plus whatever its own earlier searches learned, and which searches a worker ran is not determined. The model instead passes every download the table the registry fold learned.
- Unicode NFKC normalisation and `lower()`: uninterpreted parameter `fold`.
- `argparse`, `print` and the commented-out PDF processing.
- Records are reduced to the fields the code reads. Titles are strings, and identifier values are their `str()` text.
- An `authorId` of `null` is not modelled: author ids are strings.
- Pipeline.Crawler.AdmitEach: like Search, SearchSeeds, AdmitPaper, PlantOne, PlantAll, Build and Run, it does not state the dict contents after a raise, since the exception ends the run.
