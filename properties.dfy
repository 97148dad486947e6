/** What the gate promises, stated over every input: which paths bypass the
    cookie check, when a request is redirected, what a PIN submission
    returns, that the issued cookie readmits its holder, that nothing
    accumulates across attempts, and how assets are chosen. */
module GateProperties {
  import opened Wrappers
  import opened Strings
  import opened Cookies
  import opened Gate

  // ---------------------------------------------------------------- exemption

  /** Every path under the `/assets` prefix is exempt, with or without a
      slash after it. */
  lemma AssetsPrefixIsExempt(rest: string)
    ensures IsExempt(AssetsPrefix + rest)
  {
    assert (AssetsPrefix + rest)[..|AssetsPrefix|] == AssetsPrefix;
  }

  /** The prefix test is a raw `startsWith`: `/assetsX` and `/assets.json`
      are exempt, while `/asset` and `/Assets/x` are not. */
  lemma ExemptPathExamples()
    ensures IsExempt("/assetsX") && IsExempt("/assets.json") && IsExempt("/assets/app.js")
    ensures IsExempt("/unlock.html") && IsExempt("/__unlock")
    ensures !IsExempt("/asset") && !IsExempt("/Assets/x") && !IsExempt("/")
  {
    AssetsPrefixIsExempt("X");
    assert AssetsPrefix + "X" == "/assetsX";
    AssetsPrefixIsExempt(".json");
    assert AssetsPrefix + ".json" == "/assets.json";
    AssetsPrefixIsExempt("/app.js");
    assert AssetsPrefix + "/app.js" == "/assets/app.js";
    assert "/Assets/x"[..|AssetsPrefix|] != AssetsPrefix by {
      assert "/Assets/x"[1] != AssetsPrefix[1];
    }
  }

  /** An exempt request is never redirected, and its outcome does not depend
      on the Cookie header at all. */
  lemma ExemptIgnoresCookie(req: Request, cookie: Option<string>, sharedPin: string, origin: string,
                            store: map<string, Asset>)
    requires IsExempt(req.path)
    ensures !IsRedirect(Fetch(req, sharedPin, origin, store))
    ensures Fetch(req.(cookie := cookie), sharedPin, origin, store) == Fetch(req, sharedPin, origin, store)
  {
  }

  // --------------------------------------------------------------- the cookie

  /** For a gated path, a missing Cookie header is the empty one, and both
      are sent to the unlock page of the request's own origin. */
  lemma MissingCookieIsEmptyCookie(req: Request, sharedPin: string, origin: string, store: map<string, Asset>)
    requires !IsExempt(req.path)
    ensures Fetch(req.(cookie := None), sharedPin, origin, store)
         == Fetch(req.(cookie := Some("")), sharedPin, origin, store)
    ensures Fetch(req.(cookie := None), sharedPin, origin, store) == Redirect(origin + UnlockPage)
    ensures Header(Fetch(req.(cookie := None), sharedPin, origin, store), "Location")
         == Some(origin + "/unlock.html")
  {
    ShortNeverIncludes("", Marker);
  }

  /** For a gated path, the request is redirected exactly when `auth=1`
      occurs nowhere in the Cookie header. */
  lemma RedirectIffNoOccurrence(req: Request, sharedPin: string, origin: string, store: map<string, Asset>)
    requires !IsExempt(req.path)
    ensures IsRedirect(Fetch(req, sharedPin, origin, store))
            <==> forall i :: !OccursAt(CookieText(req), Marker, i)
  {
    IncludesIff(CookieText(req), Marker);
  }

  /** An occurrence of `auth=1` anywhere in the header admits the request,
      whatever surrounds it. */
  lemma MarkerAnywhereAdmits(req: Request, before: string, after: string, sharedPin: string, origin: string,
                             store: map<string, Asset>)
    requires req.cookie == Some(before + Marker + after)
    ensures Fetch(req, sharedPin, origin, store) == HandlePublic(req, sharedPin, store)
  {
    IncludesInside(before, Marker, after);
  }

  /** The check is a substring test, not the cookie-pair parsing of section
      5.4 of RFC 6265: a cookie called `xauth`, a value `10`, or `auth=1`
      inside another cookie's value all pass. */
  lemma LaxMarkerExamples(req: Request, sharedPin: string, origin: string, store: map<string, Asset>)
    requires req.cookie in {Some("xauth=1"), Some("auth=10"), Some("other=auth=1xyz")}
    ensures !IsRedirect(Fetch(req, sharedPin, origin, store))
  {
    if req.cookie == Some("xauth=1") {
      assert "x" + Marker + "" == "xauth=1";
      MarkerAnywhereAdmits(req, "x", "", sharedPin, origin, store);
    } else if req.cookie == Some("auth=10") {
      assert "" + Marker + "0" == "auth=10";
      MarkerAnywhereAdmits(req, "", "0", sharedPin, origin, store);
    } else {
      assert "other=" + Marker + "xyz" == "other=auth=1xyz";
      MarkerAnywhereAdmits(req, "other=", "xyz", sharedPin, origin, store);
    }
  }

  // --------------------------------------------------------------------- PIN

  predicate IsPinSubmission(req: Request) {
    req.verb == "POST" && req.path == PinEndpoint
  }

  /** The right PIN, whatever cookie comes with it, gets 200 `OK` and exactly
      the session cookie. */
  lemma CorrectPinAccepted(req: Request, sharedPin: string, origin: string, store: map<string, Asset>)
    requires IsPinSubmission(req) && req.body == Json(Some(sharedPin))
    ensures Fetch(req, sharedPin, origin, store) == Respond(200, "OK", [("Set-Cookie", AuthSetCookie)])
    ensures Header(Fetch(req, sharedPin, origin, store), "Set-Cookie")
         == Some("auth=1; Path=/; HttpOnly; Secure; SameSite=Lax")
  {
  }

  /** Any other PIN, or none, gets 401 `Invalid PIN` and no cookie. */
  lemma WrongPinRejected(req: Request, sharedPin: string, origin: string, store: map<string, Asset>)
    requires IsPinSubmission(req) && req.body.Json? && req.body.pin != Some(sharedPin)
    ensures Fetch(req, sharedPin, origin, store) == Respond(401, "Invalid PIN", [])
    ensures Header(Fetch(req, sharedPin, origin, store), "Set-Cookie") == None
  {
  }

  /** A body that does not parse is an exception, not a response. */
  lemma UnparsableBodyThrows(req: Request, sharedPin: string, origin: string, store: map<string, Asset>)
    requires IsPinSubmission(req) && req.body == Unparsable
    ensures Fetch(req, sharedPin, origin, store) == Fail(BodyNotJson)
  {
  }

  /** The PIN endpoint hands out the session cookie only to a POST with the
      right PIN: every other request that reaches it gets no Set-Cookie. */
  lemma CookieOnlyForRightPin(req: Request, sharedPin: string, origin: string, store: map<string, Asset>)
    requires Header(Fetch(req, sharedPin, origin, store), "Set-Cookie").Some?
    ensures IsPinSubmission(req) && req.body == Json(Some(sharedPin))
    ensures Header(Fetch(req, sharedPin, origin, store), "Set-Cookie") == Some(AuthSetCookie)
  {
  }

  // -------------------------------------------------------------- round trip

  /** The issued header carries the marker and names the cookie `auth=1`
      to a user agent that parses it. */
  lemma IssuedCookieParses()
    ensures CookiePairOf(AuthSetCookie) == Some(("auth", "1"))
    ensures Includes(AuthSetCookie, Marker)
  {
    AuthCookieIsValid();
    AuthSetCookieSerialises();
    PairOfSetCookieString(AuthCookie);
    AuthSetCookieCarriesMarker();
  }

  /** Unlock, then browse: after a correct PIN, a browser that stores the
      issued cookie and sends it back among any other cookies (section 5.4
      of RFC 6265) passes the gate on every path. */
  lemma UnlockThenBrowse(unlock: Request, next: Request, jar: seq<(string, string)>, sharedPin: string,
                         origin: string, store: map<string, Asset>)
    requires IsPinSubmission(unlock) && unlock.body == Json(Some(sharedPin))
    requires next.cookie == Some(CookieHeader(jar))
    ensures Header(Fetch(unlock, sharedPin, origin, store), "Set-Cookie") == Some(AuthSetCookie)
    ensures CookiePairOf(AuthSetCookie).Some?
    ensures CookiePairOf(AuthSetCookie).value in jar ==>
              Fetch(next, sharedPin, origin, store) == HandlePublic(next, sharedPin, store)
  {
    CorrectPinAccepted(unlock, sharedPin, origin, store);
    IssuedCookieParses();
    if CookiePairOf(AuthSetCookie).value in jar {
      HeaderWithAuthPairHasMarker(jar);
    }
  }

  /** Sending the issued Set-Cookie value itself back as the Cookie header
      also passes. */
  lemma IssuedValueReadmits(req: Request, sharedPin: string, origin: string, store: map<string, Asset>)
    requires req.cookie == Some(AuthSetCookie)
    ensures Fetch(req, sharedPin, origin, store) == HandlePublic(req, sharedPin, store)
  {
    AuthSetCookieCarriesMarker();
  }

  // -------------------------------------------------------------- no lockout

  /** The outcomes of a series of requests handled one after another. */
  function Replay(reqs: seq<Request>, sharedPin: string, origin: string, store: map<string, Asset>)
    : (rs: seq<Outcome>)
    ensures |rs| == |reqs|
  {
    if reqs == [] then [] else [Fetch(reqs[0], sharedPin, origin, store)] + Replay(reqs[1..], sharedPin, origin, store)
  }

  /** Nothing carries over from one request to the next: each outcome in a
      series is the outcome of that request on its own. */
  lemma {:induction false} ReplayIsPointwise(reqs: seq<Request>, sharedPin: string, origin: string,
                                             store: map<string, Asset>)
    ensures forall k :: 0 <= k < |reqs| ==>
              Replay(reqs, sharedPin, origin, store)[k] == Fetch(reqs[k], sharedPin, origin, store)
    decreases |reqs|
  {
    if reqs != [] {
      ReplayIsPointwise(reqs[1..], sharedPin, origin, store);
      forall k | 0 < k < |reqs|
        ensures Replay(reqs, sharedPin, origin, store)[k] == Fetch(reqs[k], sharedPin, origin, store)
      {
        assert reqs[1..][k - 1] == reqs[k];
      }
    }
  }

  /** No lockout: however many wrong attempts come first, every correct PIN
      in a series is accepted. */
  lemma NoLockout(reqs: seq<Request>, sharedPin: string, origin: string, store: map<string, Asset>)
    ensures forall k :: 0 <= k < |reqs| && IsPinSubmission(reqs[k]) && reqs[k].body == Json(Some(sharedPin)) ==>
              Replay(reqs, sharedPin, origin, store)[k] == Respond(200, "OK", [("Set-Cookie", AuthSetCookie)])
  {
    ReplayIsPointwise(reqs, sharedPin, origin, store);
  }

  // ------------------------------------------------------------------ assets

  /** A request to the PIN endpoint that is not a POST is an asset request. */
  lemma NonPostUnlockIsAsset(req: Request, sharedPin: string, origin: string, store: map<string, Asset>)
    requires req.path == PinEndpoint && req.verb != "POST"
    ensures Fetch(req, sharedPin, origin, store) == ServeAsset(store, PinEndpoint)
  {
  }

  /** A request that passes the gate and is not a PIN submission is served
      from the store: its own asset for an hour, else the root document with
      default caching, else an exception. */
  lemma AdmittedRequestIsServed(req: Request, sharedPin: string, origin: string, store: map<string, Asset>)
    requires IsExempt(req.path) || Includes(CookieText(req), Marker)
    requires !IsPinSubmission(req)
    ensures req.path in store ==>
              Fetch(req, sharedPin, origin, store) == Served(store[req.path], Some(3600))
    ensures req.path !in store && IndexPage in store ==>
              Fetch(req, sharedPin, origin, store) == Served(store["/index.html"], None)
    ensures req.path !in store && IndexPage !in store ==>
              Fetch(req, sharedPin, origin, store) == Fail(AssetNotFound)
  {
  }
}
