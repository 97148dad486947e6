/** The cookie the gate issues and the header a browser sends back, in the
    terms of RFC 6265: the set-cookie-string of section 4.1, the cookie-pair
    a user agent extracts from it (section 5.2), and the Cookie request
    header it then sends (section 5.4). */
module Cookies {
  import opened Wrappers
  import opened Strings

  datatype SameSitePolicy = Strict | Lax | NoRestriction

  /** The cookie-av attributes the gate uses. */
  datatype Attribute = Path(path: string) | HttpOnly | Secure | SameSite(policy: SameSitePolicy)

  datatype SetCookie = SetCookie(name: string, value: string, attributes: seq<Attribute>)

  /** A `token` character of RFC 2616: visible ASCII except the separators. */
  predicate IsTokenChar(ch: char) {
    0x21 <= ch as int <= 0x7E && ch !in "()<>@,;:\\\"/[]?={}"
  }

  /** A `cookie-octet` of section 4.1: visible ASCII except DQUOTE, comma,
      semicolon and backslash. */
  predicate IsCookieOctet(ch: char) {
    0x21 <= ch as int <= 0x7E && ch !in "\",;\\"
  }

  /** A `path-value`: any character except controls and `;`. */
  predicate IsPathChar(ch: char) {
    0x20 <= ch as int <= 0x7E && ch != ';'
  }

  predicate ValidAttribute(a: Attribute) {
    a.Path? ==> forall i :: 0 <= i < |a.path| ==> IsPathChar(a.path[i])
  }

  /** The grammar of section 4.1: a non-empty token as cookie-name, cookie-octets
      as cookie-value, and well-formed attribute values. */
  predicate ValidSetCookie(c: SetCookie) {
    && |c.name| > 0
    && (forall i :: 0 <= i < |c.name| ==> IsTokenChar(c.name[i]))
    && (forall i :: 0 <= i < |c.value| ==> IsCookieOctet(c.value[i]))
    && (forall i :: 0 <= i < |c.attributes| ==> ValidAttribute(c.attributes[i]))
  }

  function SameSiteText(p: SameSitePolicy): string {
    match p
    case Strict => "Strict"
    case Lax => "Lax"
    case NoRestriction => "None"
  }

  function AttributeText(a: Attribute): string {
    match a
    case Path(p) => "Path=" + p
    case HttpOnly => "HttpOnly"
    case Secure => "Secure"
    case SameSite(p) => "SameSite=" + SameSiteText(p)
  }

  /** `*( ";" SP cookie-av )`. */
  function AttributesText(attrs: seq<Attribute>): string {
    if attrs == [] then "" else "; " + AttributeText(attrs[0]) + AttributesText(attrs[1..])
  }

  /** The attributes, when there are any, begin with the `;` that ends the
      cookie-pair. */
  lemma AttributesTextLeadsWithSemicolon(attrs: seq<Attribute>)
    ensures AttributesText(attrs) == [] || AttributesText(attrs)[0] == ';'
  {
  }

  /** `set-cookie-string = cookie-pair *( ";" SP cookie-av )`. */
  function SetCookieString(c: SetCookie): string {
    c.name + "=" + c.value + AttributesText(c.attributes)
  }

  /** The session marker the gate looks for in the Cookie header. */
  const Marker: string := "auth=1"

  /** The cookie issued on a correct PIN, as a structured value. */
  const AuthCookie: SetCookie := SetCookie("auth", "1", [Path("/"), HttpOnly, Secure, SameSite(Lax)])

  /** The Set-Cookie header value the gate sends, verbatim. */
  const AuthSetCookie: string := "auth=1; Path=/; HttpOnly; Secure; SameSite=Lax"

  /** Letters and digits are both token characters and cookie-octets. */
  lemma AlphanumericIsTokenAndOctets(s: string)
    requires forall i :: 0 <= i < |s| ==> 'a' <= s[i] <= 'z' || 'A' <= s[i] <= 'Z' || '0' <= s[i] <= '9'
    ensures forall i :: 0 <= i < |s| ==> IsTokenChar(s[i]) && IsCookieOctet(s[i])
  {
  }

  lemma AuthCookieIsValid()
    ensures ValidSetCookie(AuthCookie)
  {
    AlphanumericIsTokenAndOctets(AuthCookie.name);
    AlphanumericIsTokenAndOctets(AuthCookie.value);
    assert IsPathChar('/');
  }

  /** Unfolding `AttributesText` once at the front. */
  lemma AttributesTextCons(a: Attribute, rest: seq<Attribute>)
    ensures AttributesText([a] + rest) == "; " + AttributeText(a) + AttributesText(rest)
  {
    assert ([a] + rest)[1..] == rest;
  }

  // The attributes of the issued cookie, serialised one at a time from the end.

  lemma SameSiteLaxText()
    ensures AttributesText([SameSite(Lax)]) == "; SameSite=Lax"
  {
  }

  lemma SecureText(rest: seq<Attribute>)
    requires AttributesText(rest) == "; SameSite=Lax"
    ensures AttributesText([Secure] + rest) == "; Secure; SameSite=Lax"
  {
    AttributesTextCons(Secure, rest);
  }

  lemma HttpOnlyText(rest: seq<Attribute>)
    requires AttributesText(rest) == "; Secure; SameSite=Lax"
    ensures AttributesText([HttpOnly] + rest) == "; HttpOnly; Secure; SameSite=Lax"
  {
    AttributesTextCons(HttpOnly, rest);
  }

  lemma PathText(rest: seq<Attribute>)
    requires AttributesText(rest) == "; HttpOnly; Secure; SameSite=Lax"
    ensures AttributesText([Path("/")] + rest) == "; Path=/; HttpOnly; Secure; SameSite=Lax"
  {
    AttributesTextCons(Path("/"), rest);
  }

  lemma AuthAttributesText()
    ensures AttributesText(AuthCookie.attributes) == "; Path=/; HttpOnly; Secure; SameSite=Lax"
  {
    var lax: seq<Attribute> := [SameSite(Lax)];
    SameSiteLaxText();
    SecureText(lax);
    HttpOnlyText([Secure] + lax);
    PathText([HttpOnly] + ([Secure] + lax));
    assert [Path("/")] + ([HttpOnly] + ([Secure] + lax)) == AuthCookie.attributes;
  }

  lemma AuthPairThenAttributes(tail: string)
    requires tail == "; Path=/; HttpOnly; Secure; SameSite=Lax"
    ensures "auth" + "=" + "1" + tail == AuthSetCookie
  {
  }

  /** The issued header is the section 4.1 serialisation of the cookie named
      `auth` with value `1`, scoped to `/`, HttpOnly, Secure and SameSite=Lax. */
  lemma AuthSetCookieSerialises()
    ensures SetCookieString(AuthCookie) == AuthSetCookie
  {
    var tail := AttributesText(AuthCookie.attributes);
    AuthAttributesText();
    AuthPairThenAttributes(tail);
  }

  lemma AuthSetCookieCarriesMarker()
    ensures Includes(AuthSetCookie, Marker)
  {
    IncludesInside("", Marker, AuthSetCookie[6..]);
    assert "" + Marker + AuthSetCookie[6..] == AuthSetCookie;
  }

  /** Index of the first `ch` in `s`, or `|s|` when there is none. */
  function IndexOf(s: string, ch: char): (k: nat)
    ensures k <= |s|
    ensures k < |s| ==> s[k] == ch
    ensures forall j :: 0 <= j < k ==> s[j] != ch
  {
    if s == [] then 0 else if s[0] == ch then 0 else 1 + IndexOf(s[1..], ch)
  }

  /** The first `ch` of `a + b`, when `a` has none and `b` is empty or starts
      with one, is where `b` begins. */
  lemma IndexOfAfter(a: string, b: string, ch: char)
    requires forall j :: 0 <= j < |a| ==> a[j] != ch
    requires b == [] || b[0] == ch
    ensures IndexOf(a + b, ch) == |a|
  {
    if b != [] {
      assert (a + b)[|a|] == ch;
    }
    forall j | 0 <= j < |a| ensures (a + b)[j] != ch {
      assert (a + b)[j] == a[j];
    }
  }

  /** The cookie-pair a user agent takes from a Set-Cookie header (section
      5.2): the text before the first `;`, split at its first `=`; a header
      with no `=` or an empty name is ignored. The section's trimming of
      whitespace around the name and value is left out: it changes nothing
      for a well-formed cookie, whose token name and cookie-octet value
      contain no space or tab. */
  function CookiePairOf(header: string): Option<(string, string)> {
    var pair := header[..IndexOf(header, ';')];
    var eq := IndexOf(pair, '=');
    if eq == |pair| || eq == 0 then None else Some((pair[..eq], pair[eq + 1..]))
  }

  /** Parsing a well-formed set-cookie-string gives back its name and value. */
  lemma PairOfSetCookieString(c: SetCookie)
    requires ValidSetCookie(c)
    ensures CookiePairOf(SetCookieString(c)) == Some((c.name, c.value))
  {
    var pairText := c.name + "=" + c.value;
    var s := SetCookieString(c);
    assert s == pairText + AttributesText(c.attributes);
    forall j | 0 <= j < |pairText| ensures pairText[j] != ';' {
      if j < |c.name| {
        assert IsTokenChar(c.name[j]);
      } else if j > |c.name| {
        assert pairText[j] == c.value[j - |c.name| - 1];
        assert IsCookieOctet(c.value[j - |c.name| - 1]);
      }
    }
    AttributesTextLeadsWithSemicolon(c.attributes);
    IndexOfAfter(pairText, AttributesText(c.attributes), ';');
    assert s[..IndexOf(s, ';')] == pairText;
    forall j | 0 <= j < |c.name| ensures c.name[j] != '=' {
      assert IsTokenChar(c.name[j]);
    }
    IndexOfAfter(c.name, "=" + c.value, '=');
    assert c.name + "=" + c.value == c.name + ("=" + c.value);
    assert pairText[..|c.name|] == c.name;
    assert pairText[|c.name| + 1..] == c.value;
  }

  /** The Cookie request header of section 5.4: the stored cookie-pairs, each
      as `name=value`, separated by `; `. */
  function CookieHeader(pairs: seq<(string, string)>): string {
    if pairs == [] then ""
    else if |pairs| == 1 then pairs[0].0 + "=" + pairs[0].1
    else pairs[0].0 + "=" + pairs[0].1 + "; " + CookieHeader(pairs[1..])
  }

  /** A Cookie header that returns the pair `auth=1`, wherever it stands among
      the other cookies, contains the marker. */
  lemma {:induction false} HeaderWithAuthPairHasMarker(pairs: seq<(string, string)>)
    requires ("auth", "1") in pairs
    ensures Includes(CookieHeader(pairs), Marker)
    decreases |pairs|
  {
    var first := pairs[0].0 + "=" + pairs[0].1;
    if pairs[0] == ("auth", "1") {
      assert first == Marker;
      if |pairs| == 1 {
        IncludesInside("", Marker, "");
        assert "" + Marker + "" == CookieHeader(pairs);
      } else {
        IncludesInside("", Marker, "; " + CookieHeader(pairs[1..]));
        assert "" + Marker + ("; " + CookieHeader(pairs[1..])) == CookieHeader(pairs);
      }
    } else {
      var rest := pairs[1..];
      assert ("auth", "1") in rest;
      HeaderWithAuthPairHasMarker(rest);
      IncludesIff(CookieHeader(rest), Marker);
      var i :| OccursAt(CookieHeader(rest), Marker, i);
      var prefix := first + "; ";
      var whole := CookieHeader(pairs);
      assert whole == prefix + CookieHeader(rest);
      assert whole[|prefix| + i..] == CookieHeader(rest)[i..];
      assert OccursAt(whole, Marker, |prefix| + i);
      IncludesIff(whole, Marker);
    }
  }
}
