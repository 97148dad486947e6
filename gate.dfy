/** The request gate of worker/index.ts: `fetch` decides whether a request
    may pass, `handlePublic` verifies PIN submissions and otherwise serves a
    static asset with a single-page-application fallback. */
module Gate {
  import opened Wrappers
  import opened Strings
  import opened Cookies

  const UnlockPage: string := "/unlock.html"
  const PinEndpoint: string := "/__unlock"
  const AssetsPrefix: string := "/assets"
  const IndexPage: string := "/index.html"

  /** Browser cache lifetime, in seconds, asked for on a direct asset hit. */
  const BrowserTtl: nat := 3600

  /** The body of a PIN submission as `request.json()` sees it: text that does
      not parse to an object it can destructure (invalid JSON, `null`), or an
      object whose `pin` field is a string or is not. */
  datatype Body = Unparsable | Json(pin: Option<string>)

  /** An already-parsed request: method, URL path, the `Cookie` header if the
      client sent one, and the body. */
  datatype Request = Request(verb: string, path: string, cookie: Option<string>, body: Body)

  datatype Asset = Asset(content: string, contentType: string)

  /** Why a request ends in an exception rather than a response. */
  datatype Failure = BodyNotJson | AssetNotFound

  /** What the worker produces for one request: a response it builds itself,
      an asset handed back by the asset store (with the browser cache
      lifetime it asked for, if any), or an exception. */
  datatype Outcome =
    | Respond(status: nat, body: string, headers: seq<(string, string)>)
    | Served(asset: Asset, browserTtl: Option<nat>)
    | Fail(reason: Failure)

  /** The first header called `name`. */
  function Lookup(headers: seq<(string, string)>, name: string): (r: Option<string>)
    ensures r.Some? ==> (name, r.value) in headers
    ensures r.None? ==> forall i :: 0 <= i < |headers| ==> headers[i].0 != name
  {
    if headers == [] then None
    else if headers[0].0 == name then Some(headers[0].1)
    else Lookup(headers[1..], name)
  }

  /** A header of a response the worker builds; assets carry none of ours. */
  function Header(o: Outcome, name: string): Option<string> {
    if o.Respond? then Lookup(o.headers, name) else None
  }

  predicate IsRedirect(o: Outcome) {
    o.Respond? && o.status == 302
  }

  /** `Response.redirect(location, 302)`. */
  function Redirect(location: string): Outcome {
    Respond(302, "", [("Location", location)])
  }

  /** The paths reachable without the session marker. */
  predicate IsExempt(path: string) {
    path == UnlockPage || path == PinEndpoint || StartsWith(path, AssetsPrefix)
  }

  /** `request.headers.get('Cookie') || ''`. */
  function CookieText(req: Request): string {
    req.cookie.GetOr("")
  }

  /** `fetch`: exempt paths go straight on; others need the marker somewhere
      in the Cookie header and are otherwise sent to the unlock page. */
  function Fetch(req: Request, sharedPin: string, origin: string, store: map<string, Asset>): (r: Outcome)
    ensures IsRedirect(r) <==> !IsExempt(req.path) && !Includes(CookieText(req), Marker)
    ensures IsRedirect(r) ==> r == Redirect(origin + UnlockPage)
    ensures !IsRedirect(r) ==> r == HandlePublic(req, sharedPin, store)
    ensures Header(r, "Set-Cookie").Some? <==>
              req.verb == "POST" && req.path == PinEndpoint && req.body == Json(Some(sharedPin))
  {
    if IsExempt(req.path) then
      HandlePublic(req, sharedPin, store)
    else if !Includes(CookieText(req), Marker) then
      Redirect(origin + UnlockPage)
    else
      HandlePublic(req, sharedPin, store)
  }

  /** `handlePublic`: a POST to the PIN endpoint is a PIN check; anything
      else is an asset request. It never redirects. */
  function HandlePublic(req: Request, sharedPin: string, store: map<string, Asset>): (r: Outcome)
    ensures !IsRedirect(r)
    ensures Header(r, "Set-Cookie").Some? ==> req.verb == "POST" && req.path == PinEndpoint
  {
    if req.path == PinEndpoint && req.verb == "POST" then
      VerifyPin(req.body, sharedPin)
    else
      ServeAsset(store, req.path)
  }

  /** The PIN check: an unparsable body throws; a `pin` equal to the shared
      PIN gets 200 `OK` and the session cookie; anything else gets 401. */
  function VerifyPin(body: Body, sharedPin: string): (r: Outcome)
    ensures r.Fail? <==> body.Unparsable?
    ensures r.Fail? ==> r.reason == BodyNotJson
    ensures body.Json? ==> r.Respond?
    ensures r.Respond? ==> (r.status == 200 <==> body.pin == Some(sharedPin))
    ensures r.Respond? && r.status == 200 ==>
              r.body == "OK" && Header(r, "Set-Cookie") == Some(AuthSetCookie)
    ensures r.Respond? && r.status != 200 ==>
              r.status == 401 && r.body == "Invalid PIN" && Header(r, "Set-Cookie") == None
  {
    match body
    case Unparsable => Fail(BodyNotJson)
    case Json(pin) =>
      if pin == Some(sharedPin) then
        Respond(200, "OK", [("Set-Cookie", AuthSetCookie)])
      else
        Respond(401, "Invalid PIN", [])
  }

  /** The asset policy: the requested path with a one-hour browser TTL; failing
      that, the root document with the store's default caching; failing
      that, an exception. */
  function ServeAsset(store: map<string, Asset>, path: string): (r: Outcome)
    ensures !r.Respond?
    ensures r.Served? && r.browserTtl == Some(BrowserTtl) <==> path in store
    ensures path in store ==> r.asset == store[path]
    ensures path !in store && r.Served? ==> IndexPage in store && r.asset == store[IndexPage] && r.browserTtl == None
    ensures r.Fail? <==> path !in store && IndexPage !in store
    ensures r.Fail? ==> r.reason == AssetNotFound
  {
    if path in store then
      Served(store[path], Some(BrowserTtl))
    else if IndexPage in store then
      Served(store[IndexPage], None)
    else
      Fail(AssetNotFound)
  }
}
