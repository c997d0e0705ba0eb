/** The application error type of `src/error.rs`, without its HTTP framing. */
module Errors {

  /** `AppError`: a transport failure (its cause is opaque here) or a parse failure with details. */
  datatype AppError = FetchFeedError(cause: string) | ParseFeedError(details: string)

  /** Details reported when an atom feed or an atom entry has no link. */
  const MissingAtomLink: string := "Unable to find a link in an atom entry"

  /** Details reported when an rss item has no title. */
  const MissingRssTitle: string := "Rss item doesn't have a title"

  /** Details reported when an rss item has no link. */
  const MissingRssUrl: string := "Rss item doesn't have a url"
}
