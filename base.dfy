/** Option and Result for the lookups that can come back empty and the steps that can fail. */
module Base {

  datatype Option<+T> = None | Some(value: T)

  /** Why a run stops. Every one of these aborts the whole run: nothing is retried or skipped. */
  datatype Failure =
    | FetchFailed(url: string)   // the network call raised
    | MissingTitle               // the page has no <title>, or it has no single string
    | MissingByline              // no div.author, or it holds no <p>
    | MissingContent             // no content region
    | MissingCaption             // a div's figure has no figcaption
    | EmptyChapter               // no content block survived the filter
    | MissingLink                // a table-of-contents item holds no <a>
    | MissingHref                // that <a> has no href

  datatype Result<+T> = Ok(value: T) | Err(error: Failure)

  datatype Outcome = Pass | Fail(error: Failure)

  lemma UnionAssoc<T>(a: set<T>, b: set<T>, c: set<T>)
    ensures a + (b + c) == (a + b) + c
  {
  }

  /** A non-empty sequence is its front with its last element appended. */
  lemma InitLast<T>(s: seq<T>)
    requires |s| > 0
    ensures s[..|s| - 1] + [s[|s| - 1]] == s
  {
  }

  /** Regrouping a log that grows at its end. */
  lemma ConcatAssoc<T>(a: seq<T>, b: seq<T>, c: seq<T>)
    ensures a + (b + c) == (a + b) + c
  {
  }
}
