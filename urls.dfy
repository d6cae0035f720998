/**
 * The parts of a `net/url` URL the workflow reads. Parsing itself is not
 * modelled: wherever the source calls `url.Parse`, the model takes the
 * parser as a function parameter.
 */
module Urls {
  import opened Wrappers
  import opened Icons

  /** A parsed URL: its scheme, its host, and `String()` of it. */
  datatype Url = Url(scheme: string, host: string, text: string)

  /** `url.Parse`, as a parameter. */
  type Parser = string -> Result<Url, string>

  /** The schemes the workflow treats as web pages. */
  predicate IsWeb(u: Url) {
    u.scheme == "http" || u.scheme == "https"
  }

  /** The answers of a `URLer` (urls.go): an item that has a URL. */
  datatype URLer = URLer(title: string, url: string, uid: string, copytext: string, largetype: string, icon: Icon)
}
