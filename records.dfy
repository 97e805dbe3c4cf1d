/**
 * The JSON records main.py exchanges with the metadata API, reduced to the
 * fields the code reads or writes.
 */
module Records {
  import opened Wrappers

  /**
   * One entry of the `externalIds` dict: its namespace ("ArXiv", "DOI", ...)
   * and the identifier as `str()` and an f-string render it (both give the
   * same text for the strings and integers the API returns).
   */
  datatype ExternalId = ExternalId(namespace: string, value: string)

  /** An entry of a paper's `authors` list. */
  datatype Author = Author(authorId: string, name: string)

  /**
   * An entry of a `citations` or `references` list: the related paper
   * (`citingPaper` or `citedPaper`) and the edge's own metadata.
   */
  datatype Edge = Edge(related: Paper, contexts: seq<string>, intents: seq<string>)

  /**
   * A paper dict.  `openAccessUrl` is `Some(u)` exactly when the record
   * passes the test main.py repeats before reading a PDF URL: it has an
   * `openAccessPdf` key holding a dict whose `url` key holds a string `u`.
   * `externalIds` is `None` when the key is missing or holds null.
   * `citations` and `references` are `None` until they are fetched.
   */
  datatype Paper = Paper(
    paperId: string,
    title: string,
    venue: string,
    fieldsOfStudy: seq<string>,
    externalIds: Option<seq<ExternalId>>,
    openAccessUrl: Option<string>,
    authors: seq<Author>,
    citations: Option<seq<Edge>>,
    references: Option<seq<Edge>>)

  /** An API response: status 200 with its decoded `data`, or any other status. */
  datatype Response<T> = Ok(data: T) | NotOk

  /** The payload of a response, or the empty list the code uses on a non-200 status. */
  function DataOrEmpty<T>(r: Response<seq<T>>): seq<T> {
    match r
    case Ok(d) => d
    case NotOk => []
  }

  /** Which of the two lazily fetched lists an operation works on. */
  datatype Relation = Citations | References
}
