/** The arguments of an outbound call (fetch, XMLHttpRequest, sendBeacon), in
    the form the firewalls inspect them. `new URL(...)` and `JSON.parse` are
    not modelled as grammars: an argument carries what they produce from it. */
module Outbound {
  import opened Js
  import opened SearchParams

  /** A URL argument. `search` is the query of `new URL(text, base)`, or None
      when that constructor throws. NoUrl is `undefined` or `null`. */
  datatype UrlArg = NoUrl | Url(text: string, search: Option<Pairs>)

  /** A request body. `parsed` is what `JSON.parse(text)` returns, or None
      when it throws. NonText is any body that is not a string (Blob,
      ArrayBuffer, FormData, ...); NoBody is `undefined` or `null`. */
  datatype Body = NoBody | NonText | Text(text: string, parsed: Option<Value>)

  /** `url && ...`: the URL argument is a non-empty string. */
  predicate UrlPresent(u: UrlArg) {
    u.Url? && u.text != ""
  }

  /** `body && typeof body === "string"`: the body is a non-empty string. */
  predicate TextPresent(b: Body) {
    b.Text? && b.text != ""
  }

  /** The first argument of fetch: a URL string, an object with a `url`
      property (a Request), or an object without one (a URL instance). */
  datatype FetchInput = UrlString(text: string, search: Option<Pairs>) | WithUrlField(url: UrlArg) | WithoutUrlField

  /** The second argument of fetch. */
  datatype Init = NoInit | Init(body: Body)

  /** `typeof input === "string" ? input : input.url` */
  function FetchUrl(input: FetchInput): (u: UrlArg)
    ensures input.WithoutUrlField? ==> u == NoUrl
  {
    match input
    case UrlString(text, search) => Url(text, search)
    case WithUrlField(url) => url
    case WithoutUrlField => NoUrl
  }

  /** `init && init.body` */
  function FetchBody(init: Init): Body {
    match init
    case NoInit => NoBody
    case Init(body) => body
  }
}
