// `Response` of reproca/response.py: cookies to set, kept as `Cookie`
// records behind a read-only `cookies` property, and a header dictionary
// behind a `headers` property.

module ReprocaResponse {
  import opened Wrappers
  import opened CookieFields

  /** The `Cookie` dataclass. */
  datatype Cookie = Cookie(key: string, value: string, maxAge: Option<int>, expires: Option<Expires>,
                           path: string, domain: Option<string>, secure: bool, httponly: bool,
                           samesite: SameSite)

  class Response {
    /** `_cookies` */
    var storedCookies: seq<Cookie>
    /** `_headers` */
    var storedHeaders: map<string, string>

    /** The `cookies` property: the stored list itself. */
    function Cookies(): (c: seq<Cookie>)
      reads this
      ensures c == storedCookies
    {
      storedCookies
    }

    /** The `headers` property: the stored dictionary itself. */
    function Headers(): (h: map<string, string>)
      reads this
      ensures h == storedHeaders
    {
      storedHeaders
    }

    constructor()
      ensures Cookies() == [] && Headers() == map[]
    {
      storedCookies := [];
      storedHeaders := map[];
    }

    /** `set_cookie`: append one Cookie with the arguments as its fields in
        order; the arguments after `key` default as in the source, and those
        after `value` are keyword-only. */
    method SetCookie(key: string, value: string := "",
                     nameonly maxAge: Option<int> := None,
                     nameonly expires: Option<Expires> := None,
                     nameonly path: string := "/",
                     nameonly domain: Option<string> := None,
                     nameonly secure: bool := false,
                     nameonly httponly: bool := false,
                     nameonly samesite: SameSite := "lax")
      modifies this
      ensures Cookies() == old(Cookies()) + [Cookie(key, value, maxAge, expires, path, domain, secure, httponly, samesite)]
      ensures Headers() == old(Headers())
    {
      storedCookies := storedCookies + [Cookie(key, value, maxAge, expires, path, domain, secure, httponly, samesite)];
    }

    /** `set_session(sessionid)`: a secure, HTTP-only, strict session cookie;
        everything else at its default. */
    method SetSession(sessionid: string)
      modifies this
      ensures Cookies() == old(Cookies()) + [Cookie(SESSION_COOKIE, sessionid, None, None, "/", None, true, true, "strict")]
      ensures Headers() == old(Headers())
    {
      SetCookie(SESSION_COOKIE, sessionid, secure := true, httponly := true, samesite := "strict");
    }

    /** `unset_session()`: the same cookie with an empty value. */
    method UnsetSession()
      modifies this
      ensures Cookies() == old(Cookies()) + [Cookie(SESSION_COOKIE, "", None, None, "/", None, true, true, "strict")]
      ensures Headers() == old(Headers())
    {
      SetCookie(SESSION_COOKIE, "", secure := true, httponly := true, samesite := "strict");
    }
  }
}
