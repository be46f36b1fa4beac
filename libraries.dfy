/** The two foreign calls index.js makes, kept abstract: their behaviour is whatever the
    caller supplies, and nothing is assumed about them beyond their types. */
module Libraries {
  import opened Wrappers

  /** What `url.parse` returns that the source looks at: whether the protocol field is
      truthy, and the `path` field (path plus any query string), `None` when absent. */
  datatype ParsedUrl = ParsedUrl(hasProtocol: bool, path: Option<string>)

  /** `urlsIn` is `match` of the url-regexp package (every URL found in a string);
      `parse` is Node's `url.parse`. */
  datatype UrlLibrary = UrlLibrary(urlsIn: string -> seq<string>, parse: string -> ParsedUrl)
}
