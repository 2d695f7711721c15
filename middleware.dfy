/**
 * The request middleware: it derives a client identity from the proxy
 * headers with a JavaScript `||` chain and lets every request through with
 * `NextResponse.next()`; the rate-limit call that would use the identity
 * is commented out in the source, so no request is denied.
 */
module Middleware {
  import opened Wrappers
  import opened JsText

  /** Request headers by lower-case name. */
  type Headers = map<string, string>

  const ForwardedFor: string := "x-forwarded-for"
  const CfConnectingIp: string := "cf-connecting-ip"
  const Loopback: string := "127.0.0.1"

  /** `headers.get(name)`: the value, or None for `null`. */
  function Header(h: Headers, name: string): (r: Option<string>)
    ensures r.Some? <==> name in h
    ensures r.Some? ==> r.value == h[name]
  {
    if name in h then Some(h[name]) else None
  }

  /** JavaScript `a || b` on `string | null`: `a` when it is truthy, else `b`. */
  function JsOr(a: Option<string>, b: Option<string>): (r: Option<string>)
    ensures Truthy(a) ==> r == a
    ensures !Truthy(a) ==> r == b
    ensures Truthy(r) <==> Truthy(a) || Truthy(b)
  {
    if Truthy(a) then a else b
  }

  /** The `ip` of the middleware:
      `x-forwarded-for || cf-connecting-ip || "127.0.0.1"`. */
  function ClientIdentity(h: Headers): (ip: string)
    ensures ip != ""
    ensures Truthy(Header(h, ForwardedFor)) ==> ip == h[ForwardedFor]
    ensures !Truthy(Header(h, ForwardedFor)) && Truthy(Header(h, CfConnectingIp))
            ==> ip == h[CfConnectingIp]
    ensures !Truthy(Header(h, ForwardedFor)) && !Truthy(Header(h, CfConnectingIp))
            ==> ip == Loopback
  {
    JsOr(JsOr(Header(h, ForwardedFor), Header(h, CfConnectingIp)), Some(Loopback)).value
  }

  /** The responses a middleware can give: `NextResponse.next()`, or a JSON
      response such as the 429 "Too many requests" of the commented-out
      limiter branch. */
  datatype Response = Next | Json(status: int, message: string)

  /** One run of the middleware: the identity it computes (and only logs)
      and the response it returns. */
  datatype Run = Run(loggedIp: string, response: Response)

  function HandleRequest(h: Headers): (r: Run)
    ensures r.response == Next
    ensures r.loggedIp == ClientIdentity(h)
    ensures r.loggedIp != ""
    ensures r.loggedIp in {Loopback} + h.Values
  {
    Run(ClientIdentity(h), Next)
  }

  /** The forwarded-for header is used verbatim: a list of addresses is not
      split, so the identity is the whole list. */
  lemma ForwardedListVerbatim(h: Headers)
    requires ForwardedFor in h && h[ForwardedFor] == "203.0.113.7, 10.0.0.1"
    ensures ClientIdentity(h) == "203.0.113.7, 10.0.0.1"
  {
  }

  /** An empty forwarded-for header counts as absent: the identity falls
      through to the Cloudflare header. */
  lemma EmptyForwardedFallsThrough(h: Headers)
    requires ForwardedFor in h && h[ForwardedFor] == ""
    requires CfConnectingIp in h && h[CfConnectingIp] == "198.51.100.2"
    ensures ClientIdentity(h) == "198.51.100.2"
  {
  }

  /** Without either header every client shares the loopback identity. */
  lemma UnidentifiedClientsShareIdentity(h1: Headers, h2: Headers)
    requires ForwardedFor !in h1 && CfConnectingIp !in h1
    requires ForwardedFor !in h2 && CfConnectingIp !in h2
    ensures ClientIdentity(h1) == ClientIdentity(h2) == Loopback
  {
  }
}
