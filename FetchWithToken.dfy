/**
 * `getCookie` and `fetchWithToken`: read the access token from the browser's
 * cookie string and attach it, as the `access` header, to a request sent with
 * credentials included. The cookie string, the network and its outcome are
 * parameters of the model.
 */
module FetchWithToken {
  import opened Common
  import opened JsString

  /** The name of the cookie that carries the session token. */
  const AccessTokenCookie: string := "accessToken"
  /** The header that carries the token to the backend. */
  const AccessHeader: string := "access"
  /** The `credentials` mode of every request. */
  const CredentialsInclude: string := "include"

  /** The separator `getCookie(name)` splits on: `"; name="`. */
  function CookieSeparator(name: string): (sep: string)
    ensures sep != [] && sep[0] == ';'
    ensures forall k :: 0 < k < |sep| && ';' !in name ==> sep[k] != ';'
  {
    "; " + name + "="
  }

  /** The string `getCookie` searches: `"; " + document.cookie`. */
  function CookieHaystack(documentCookie: string): string {
    "; " + documentCookie
  }

  /** `getCookie(name)` over `document.cookie`: `null` is `None`. */
  function GetCookie(documentCookie: string, name: string): (r: Option<string>)
    ensures r.Some? ==> ';' !in r.value
  {
    var parts := Split(CookieHaystack(documentCookie), CookieSeparator(name));
    if |parts| == 2 then
      FirstFieldIsPrefixUpToSemicolon(parts[1]);
      Some(FirstField(parts[1]))
    else None
  }

  /** When `"; name="` occurs exactly once, the cookie's value is the text after
      it up to the next `;` (or to the end). */
  lemma CookieFoundOnce(documentCookie: string, name: string, i: int)
    requires OccursAt(CookieHaystack(documentCookie), CookieSeparator(name), i)
    requires forall k :: OccursAt(CookieHaystack(documentCookie), CookieSeparator(name), k) ==> k == i
    ensures GetCookie(documentCookie, name)
            == Some(FirstField(CookieHaystack(documentCookie)[i + |CookieSeparator(name)|..]))
  {
    SplitAtUniqueOccurrence(CookieHaystack(documentCookie), CookieSeparator(name), i);
  }

  /** A name that does not occur after a cookie boundary yields `null`. */
  lemma CookieAbsent(documentCookie: string, name: string)
    requires forall k :: !OccursAt(CookieHaystack(documentCookie), CookieSeparator(name), k)
    ensures GetCookie(documentCookie, name) == None
  {
    SplitWithoutOccurrence(CookieHaystack(documentCookie), CookieSeparator(name));
  }

  /** A duplicated cookie yields `null`: the split has more than two parts. */
  lemma CookieDuplicated(documentCookie: string, name: string, i: int, j: int)
    requires OccursAt(CookieHaystack(documentCookie), CookieSeparator(name), i)
    requires OccursAt(CookieHaystack(documentCookie), CookieSeparator(name), j)
    requires i + |CookieSeparator(name)| <= j
    ensures GetCookie(documentCookie, name) == None
  {
    SplitAtTwoOccurrences(CookieHaystack(documentCookie), CookieSeparator(name), i, j);
  }

  /** For a name without `;`, two distinct occurrences of `"; name="` never
      overlap, because the separator holds `;` only at its start. */
  lemma {:induction false} OccurrencesDisjoint(s: string, name: string, i: int, j: int)
    requires ';' !in name
    requires OccursAt(s, CookieSeparator(name), i) && OccursAt(s, CookieSeparator(name), j)
    requires i < j
    ensures i + |CookieSeparator(name)| <= j
  {
    var sep := CookieSeparator(name);
    assert s[j] == s[j..j + |sep|][0] == ';';
  }

  /** The whole behaviour of `getCookie` for a name without `;`: it finds a value
      exactly when `"; name="` occurs once in `"; " + document.cookie`, and the
      value is the text after that occurrence up to the next `;`. */
  lemma GetCookieSpec(documentCookie: string, name: string)
    requires ';' !in name
    ensures GetCookie(documentCookie, name).Some? <==>
            exists i :: OccursAt(CookieHaystack(documentCookie), CookieSeparator(name), i)
                        && forall k :: OccursAt(CookieHaystack(documentCookie), CookieSeparator(name), k) ==> k == i
    ensures forall i :: OccursAt(CookieHaystack(documentCookie), CookieSeparator(name), i)
                        && (forall k :: OccursAt(CookieHaystack(documentCookie), CookieSeparator(name), k) ==> k == i)
                        ==> GetCookie(documentCookie, name)
                            == Some(FirstField(CookieHaystack(documentCookie)[i + |CookieSeparator(name)|..]))
  {
    var s, sep := CookieHaystack(documentCookie), CookieSeparator(name);
    forall i | OccursAt(s, sep, i) && (forall k :: OccursAt(s, sep, k) ==> k == i)
      ensures GetCookie(documentCookie, name) == Some(FirstField(s[i + |sep|..]))
    {
      CookieFoundOnce(documentCookie, name, i);
    }
    if forall k :: !OccursAt(s, sep, k) {
      CookieAbsent(documentCookie, name);
    }
    forall i, k | OccursAt(s, sep, i) && OccursAt(s, sep, k) && i < k
      ensures GetCookie(documentCookie, name) == None
    {
      OccurrencesDisjoint(s, name, i, k);
      CookieDuplicated(documentCookie, name, i, k);
    }
  }

  /** An occurrence of `"; name="` begins with `;`. */
  lemma OccurrenceStartsAtSemicolon(s: string, name: string, k: int)
    ensures OccursAt(s, CookieSeparator(name), k) ==> s[k] == ';' && s[k + 2] == CookieSeparator(name)[2]
  {
    if OccursAt(s, CookieSeparator(name), k) {
      assert s[k..k + |CookieSeparator(name)|][0] == s[k];
      assert s[k..k + |CookieSeparator(name)|][2] == s[k + 2];
    }
  }

  /** The session token of the only cookie is read in full. */
  lemma GetCookieSingle()
    ensures GetCookie("accessToken=abc123", AccessTokenCookie) == Some("abc123")
  {
    var v, sep := CookieHaystack("accessToken=abc123"), CookieSeparator(AccessTokenCookie);
    assert OccursAt(v, sep, 0);
    forall k | OccursAt(v, sep, k) ensures k == 0 {
      OccurrenceStartsAtSemicolon(v, AccessTokenCookie, k);
      assert ';' !in v[1..];
    }
    CookieFoundOnce("accessToken=abc123", AccessTokenCookie, 0);
    assert v[|sep|..] == "abc123";
    FirstFieldIsPrefixUpToSemicolon("abc123");
  }

  /** A cookie whose name merely ends in `accessToken` is not the token. */
  lemma GetCookieAnchored()
    ensures GetCookie("xaccessToken=v", AccessTokenCookie) == None
  {
    var v, sep := CookieHaystack("xaccessToken=v"), CookieSeparator(AccessTokenCookie);
    forall k ensures !OccursAt(v, sep, k) {
      OccurrenceStartsAtSemicolon(v, AccessTokenCookie, k);
    }
    CookieAbsent("xaccessToken=v", AccessTokenCookie);
  }

  /** A token cookie set twice is read as missing. */
  lemma GetCookieTwice()
    ensures GetCookie("accessToken=a; accessToken=b", AccessTokenCookie) == None
  {
    var v, sep := CookieHaystack("accessToken=a; accessToken=b"), CookieSeparator(AccessTokenCookie);
    assert v[0..14] == sep && v[15..29] == sep;
    CookieDuplicated("accessToken=a; accessToken=b", AccessTokenCookie, 0, 15);
  }

  /** With no cookies at all the token is missing. */
  lemma GetCookieNoCookies()
    ensures GetCookie("", AccessTokenCookie) == None
  {
    CookieAbsent("", AccessTokenCookie);
  }

  /** `${accessToken}`: a missing token is rendered as the text `null`. */
  function TokenText(token: Option<string>): (t: string)
    ensures token.None? ==> t == "null"
    ensures token.Some? ==> t == token.value
  {
    match token
    case None => "null"
    case Some(v) => v
  }

  /** The caller's `options`; every field may be left out. */
  datatype FetchOptions<Body> = FetchOptions(
    httpMethod: Option<string>,
    headers: Option<map<string, string>>,
    body: Option<Body>)

  /** The request handed to `fetch`. */
  datatype Request<Body> = Request(
    url: string,
    httpMethod: Option<string>,
    headers: map<string, string>,
    body: Option<Body>,
    credentials: string)

  /** The caller's headers, `options.headers || {}`. */
  function CallerHeaders<Body>(options: FetchOptions<Body>): map<string, string> {
    match options.headers
    case None => map[]
    case Some(h) => h
  }

  /** The request `fetchWithToken(url, options)` sends while the browser holds
      `documentCookie`. */
  function BuildRequest<Body>(url: string, options: FetchOptions<Body>, documentCookie: string): (r: Request<Body>)
    ensures r.url == url
    ensures r.credentials == CredentialsInclude
    ensures r.httpMethod == options.httpMethod && r.body == options.body
    ensures AccessHeader in r.headers
    ensures r.headers[AccessHeader] == TokenText(GetCookie(documentCookie, AccessTokenCookie))
    ensures forall h :: h in CallerHeaders(options) && h != AccessHeader ==>
              h in r.headers && r.headers[h] == CallerHeaders(options)[h]
    ensures r.headers.Keys == CallerHeaders(options).Keys + {AccessHeader}
  {
    var token := GetCookie(documentCookie, AccessTokenCookie);
    var headers := CallerHeaders(options)[AccessHeader := TokenText(token)];
    Request(url, options.httpMethod, headers, options.body, CredentialsInclude)
  }

  /** The `access` header for a browser holding `accessToken=abc123`, and for
      one holding no cookie at all, with a caller `access` header overridden. */
  lemma AccessHeaderExamples<Body>(url: string, body: Option<Body>)
    ensures BuildRequest(url, FetchOptions(Some("GET"), None, body), "accessToken=abc123").headers
            == map[AccessHeader := "abc123"]
    ensures BuildRequest(url, FetchOptions(None, Some(map["access" := "mine", "Accept" := "x"]), body), "").headers
            == map["Accept" := "x", AccessHeader := "null"]
  {
    GetCookieSingle();
    GetCookieNoCookies();
    assert map["access" := "mine", "Accept" := "x"][AccessHeader := "null"] == map["Accept" := "x", AccessHeader := "null"];
  }

  /** What the backend answers. */
  datatype Response = Response(status: int, body: string) {
    /** `response.ok`. */
    predicate Ok() { 200 <= status <= 299 }
  }

  /** The settled `fetch` promise: a response, or a transport failure. */
  datatype NetworkOutcome = Received(response: Response) | TransportFailure(reason: string)

  /** The settled `fetchWithToken` promise: resolved with a response, or rejected. */
  datatype FetchResult = Resolved(response: Response) | Rejected(reason: string)

  /** The `try`/`catch` around `fetch`: every response, ok or not, is returned as
      it arrived; a transport failure is re-thrown. */
  function Settle(outcome: NetworkOutcome): (r: FetchResult)
    ensures r.Resolved? <==> outcome.Received?
    ensures r.Resolved? ==> r.response == outcome.response
    ensures outcome.Received? && !outcome.response.Ok() ==> r == Resolved(outcome.response)
    ensures r.Rejected? ==> r.reason == outcome.reason
  {
    match outcome
    case Received(response) =>
      // A response that is not ok is only logged.
      Resolved(response)
    case TransportFailure(reason) => Rejected(reason)
  }

  /** `fetchWithToken(url, options)`, with `fetch` as a parameter. */
  function FetchWithTokenCall<Body>(
    url: string, options: FetchOptions<Body>, documentCookie: string,
    fetch: Request<Body> -> NetworkOutcome): (r: FetchResult)
    ensures forall response :: r == Resolved(response) <==>
              fetch(BuildRequest(url, options, documentCookie)) == Received(response)
    ensures forall reason :: r == Rejected(reason) <==>
              fetch(BuildRequest(url, options, documentCookie)) == TransportFailure(reason)
  {
    Settle(fetch(BuildRequest(url, options, documentCookie)))
  }
}
