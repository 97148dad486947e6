# PIN gate in front of a static site — Dafny model

This project models the Cloudflare worker in `worker/index.ts`, a minimal
access gate in front of a static site. Every request enters `fetch`:

- the unlock page `/unlock.html`, the PIN endpoint `/__unlock`, and every path
  that starts with `/assets` are exempt and go straight to `handlePublic`;
- any other path needs the text `auth=1` somewhere in its `Cookie` header (a
  missing header counts as the empty one), and otherwise gets a 302 redirect to
  `origin + "/unlock.html"`.

`handlePublic` treats a POST to `/__unlock` as a PIN submission. The submitted
`pin` is compared with the configured shared PIN by plain string equality. A
match gets 200 `OK` and `Set-Cookie: auth=1; Path=/; HttpOnly; Secure; SameSite=Lax`.
Anything else gets 401 `Invalid PIN`. Every other request is served from the
static asset store. The requested path is served with a browser TTL of 3600
seconds. If it is missing, `/index.html` is served with the store's default
caching (the single-page-application fallback). If that is missing too, the
request ends in an exception.

Everything is pure and stateless, so the model is written as functions and
lemmas:

- `Wrappers`: `Option`.
- `Strings`: `startsWith` and `includes`. `Includes` is defined as a
  left-to-right scan and proved equal to "occurs at some index".
- `Cookies`: the issued cookie as a structured value, its serialisation as a
  set-cookie-string (section 4.1 of RFC 6265), the cookie-pair a user agent
  takes from it (section 5.2), and the Cookie header a user agent sends back
  (section 5.4).
- `Gate`: the request and outcome datatypes, `Fetch`, `HandlePublic`,
  `VerifyPin` and `ServeAsset`.
- `GateProperties`: the properties the gate promises, as lemmas over all
  inputs.

The asset store is an abstract `map<string, Asset>`. The request arrives
already parsed: method, path, optional Cookie header and body. The origin and
the shared PIN are parameters.

Three consequences of the code are worth stating:

- The exemption test is `startsWith('/assets')` with no trailing slash, so
  `/assetsX` and `/assets.json` are exempt as well as `/assets/...`
  (`ExemptPathExamples`, `AssetsPrefixIsExempt`).
- The code produces no 400 and no 404: a malformed PIN body and a missing
  `/index.html` fallback both end in an exception, modelled as
  `Fail(BodyNotJson)` and `Fail(AssetNotFound)`.
- The worker keeps no mutable module state, so `Fetch` is a function of the
  request and the configuration alone; that is why nothing accumulates
  between requests. `ReplayIsPointwise` and `NoLockout` spell out what this
  means for a series of attempts; they follow from `Fetch` being a function.

## Model

| member | source | states |
|---|---|---|
| `Gate.Fetch` | worker/index.ts:13-33 | The outcome is a redirect exactly when the path is not exempt and the Cookie text (missing = empty) does not include `auth=1`. A redirect always goes to `origin + "/unlock.html"`. Every other outcome is `handlePublic`'s. A Set-Cookie header appears exactly for a POST to `/__unlock` whose pin equals the shared PIN. |
| `Gate.HandlePublic` | worker/index.ts:37-75 | `handlePublic` never redirects. It emits a Set-Cookie only on a POST to `/__unlock`. |
| `Gate.VerifyPin` | worker/index.ts:45-58 | An unparsable body throws `BodyNotJson`. A parsed body always gets a response, whose status is 200 exactly when the pin equals the shared PIN. 200 comes with body `OK` and the exact Set-Cookie value. Anything else is 401 `Invalid PIN` with no Set-Cookie. |
| `Gate.ServeAsset` | worker/index.ts:61-74 | Asset policy. The requested asset is served with TTL 3600 exactly when the path is in the store. A missing path falls back to `/index.html` with the store's default caching (no TTL asked for). The outcome is the `AssetNotFound` exception exactly when both are missing. The policy never builds a response of its own. |
| `Gate.Lookup` | worker/index.ts:49-54 | A header found by name is one of the response's headers. A header not found is absent from all of them. |
| `Strings.IncludesIff` | worker/index.ts:26 | The scan used for `cookie.includes('auth=1')` succeeds exactly when the marker occurs at some index (both directions). |
| `Strings.IncludesInside` | worker/index.ts:26 | An occurrence of the marker is found whatever text surrounds it. |
| `Strings.ShortNeverIncludes` | worker/index.ts:25-26 | A header shorter than the marker (the empty one in particular) never includes it. |
| `Cookies.AuthCookieIsValid` | worker/index.ts:51-52 | The issued cookie has a token name, a cookie-octet value and a valid path, as section 4.1 of RFC 6265 requires. |
| `Cookies.AuthSetCookieSerialises` | worker/index.ts:51-52 | The literal header value is the section 4.1 serialisation of cookie `auth=1` with `Path=/`, `HttpOnly`, `Secure` and `SameSite=Lax`. |
| `Cookies.AuthSetCookieCarriesMarker` | worker/index.ts:52 | The issued header value contains `auth=1`. |
| `Cookies.PairOfSetCookieString` | worker/index.ts:52 | A user agent parsing any well-formed set-cookie-string gets back that cookie's name and value. |
| `Cookies.HeaderWithAuthPairHasMarker` | worker/index.ts:26 | A Cookie header that returns the pair `auth=1` among any other cookies contains the marker. |
| `GateProperties.AssetsPrefixIsExempt` | worker/index.ts:19 | Every path starting with `/assets` is exempt, with or without a following slash. |
| `GateProperties.ExemptPathExamples` | worker/index.ts:16-20 | `/assetsX`, `/assets.json`, `/assets/app.js`, `/unlock.html` and `/__unlock` are exempt. `/asset`, `/Assets/x` and `/` are not. |
| `GateProperties.ExemptIgnoresCookie` | worker/index.ts:16-22 | An exempt request is never redirected. Its outcome is the same whatever Cookie header it carries. |
| `GateProperties.MissingCookieIsEmptyCookie` | worker/index.ts:25-30 | On a gated path, a missing Cookie header gives the same outcome as an empty one. That outcome is the 302 whose Location is `origin + "/unlock.html"`. |
| `GateProperties.RedirectIffNoOccurrence` | worker/index.ts:26-33 | On a gated path, the request is redirected exactly when `auth=1` occurs at no index of the Cookie text. |
| `GateProperties.MarkerAnywhereAdmits` | worker/index.ts:26-33 | A Cookie header with `auth=1` anywhere in it is passed to `handlePublic`. |
| `GateProperties.LaxMarkerExamples` | worker/index.ts:26 | `xauth=1`, `auth=10` and `other=auth=1xyz` all pass the gate. |
| `GateProperties.CorrectPinAccepted` | worker/index.ts:45-54 | A POST to `/__unlock` with the right PIN, with any cookie, yields 200 `OK` with exactly `auth=1; Path=/; HttpOnly; Secure; SameSite=Lax`. |
| `GateProperties.WrongPinRejected` | worker/index.ts:48-57 | A POST to `/__unlock` with a different or missing pin yields 401 `Invalid PIN` with no Set-Cookie. |
| `GateProperties.UnparsableBodyThrows` | worker/index.ts:46 | A POST to `/__unlock` whose body does not parse ends in an exception, not a response. |
| `GateProperties.CookieOnlyForRightPin` | worker/index.ts:45-57 | Any outcome carrying a Set-Cookie came from a POST to `/__unlock` with the right PIN, and carries the session cookie. |
| `GateProperties.IssuedCookieParses` | worker/index.ts:52 | The issued header parses to the cookie-pair (`auth`, `1`) and contains the marker. |
| `GateProperties.UnlockThenBrowse` | worker/index.ts:26-54 | Round trip: a correct PIN issues exactly the session cookie, which a user agent parses to a cookie-pair. A browser that sends that pair back among any other cookies passes the gate on every path. |
| `GateProperties.IssuedValueReadmits` | worker/index.ts:26-52 | Sending the issued Set-Cookie value back verbatim as the Cookie header also passes. |
| `GateProperties.ReplayIsPointwise` | worker/index.ts:13-75 | In a series of requests, each outcome equals that request's outcome on its own. This follows from the worker keeping no module state, which the model reflects by making `Fetch` a function of the request and configuration. |
| `GateProperties.NoLockout` | worker/index.ts:45-58 | Every correct PIN submission in any series is accepted, whatever attempts came before. |
| `GateProperties.NonPostUnlockIsAsset` | worker/index.ts:45-74 | A non-POST request to `/__unlock` is an asset request for `/__unlock`. |
| `GateProperties.AdmittedRequestIsServed` | worker/index.ts:61-74 | An admitted request that is not a PIN submission is served from the store. A hit gets TTL 3600. A miss gets `/index.html` with default caching. A miss with no `/index.html` ends in an exception. |

## Left out

- URL parsing (`new URL(request.url)`): the path and origin are taken as already-parsed strings. `new URL('/unlock.html', origin)` is modelled as `origin + "/unlock.html"`.
- `request.json()`: the body is modelled as `Unparsable` or `Json(pin)`. `Unparsable` covers text that is not JSON and JSON `null`, both of which throw. `Json(None)` covers a missing or non-string `pin`, which fails the `===` test.
- Method normalisation: the Fetch API upper-cases standard methods. The model takes the method as already normalised.
- `getAssetFromKV` internals are not modelled: KV lookup, content types, ETags, the mapping of `/` to `/index.html`, and the library's own rejection of methods other than GET/HEAD. The store is an abstract map. Any failed first lookup counts as a missing path, and a failed fallback counts as `AssetNotFound`.
- Headers: a missing `Cookie` header is `None`. Merging several `Cookie` headers and case-insensitive header names are not modelled. The `Content-Type` that `new Response` adds by itself is not modelled.
- `async`/`await`, `ExecutionContext`, `waitUntil`, the `Env` interface and deployment configuration. The shared PIN is a parameter.
- Timing: the PIN comparison is plain string equality. Its non-constant running time is outside a functional model.
