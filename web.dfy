/** Stand-ins for the libraries the core calls but does not implement:
    `urllib.parse.urlparse` and `urljoin`, pydantic's `HttpUrl` validation and
    `html.unescape`. They are passed in as functions; nothing is assumed of
    them beyond being functions. HTML parsing is replaced by its output, a
    sequence of tags. */
module Web {
  import opened Wrappers

  /** The components of `urlparse(u)` that the core reads. */
  datatype UrlParts = UrlParts(scheme: string, netloc: string, path: string, query: string)

  datatype UrlLib = UrlLib(
    /** `urllib.parse.urlparse` */
    parse: string -> UrlParts,
    /** `urllib.parse.urljoin(base, link)` */
    join: (string, string) -> string,
    /** `HttpUrl(s)`: the validated URL's string form, or None when
        pydantic raises a ValidationError */
    httpUrl: string -> Option<string>,
    /** `html.unescape` */
    unescape: string -> string)

  /** One element of a parsed page: its tag name and its `href` and `src`
      attributes, when present. */
  datatype Tag = Tag(name: string, href: Option<string>, src: Option<string>)
}
