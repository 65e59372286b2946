// `Response` of reproca_server/reproca/response.py: cookies to set, kept as
// 9-tuples in the order `set_cookie` takes its arguments, and a header
// dictionary the cookie methods never touch.

module ServerResponse {
  import opened Wrappers
  import opened CookieFields

  /** (key, value, max_age, expires, path, domain, secure, httponly, samesite) */
  type CookieTuple = (string, string, Option<int>, Option<Expires>, string, Option<string>, bool, bool, SameSite)

  class Response {
    var cookies: seq<CookieTuple>
    var headers: map<string, string>

    constructor()
      ensures cookies == [] && headers == map[]
    {
      cookies := [];
      headers := map[];
    }

    /** `set_cookie`: append one record; the arguments after `key` default as
        in the source, and those after `value` are keyword-only. */
    method SetCookie(key: string, value: string := "",
                     nameonly maxAge: Option<int> := None,
                     nameonly expires: Option<Expires> := None,
                     nameonly path: string := "/",
                     nameonly domain: Option<string> := None,
                     nameonly secure: bool := false,
                     nameonly httponly: bool := false,
                     nameonly samesite: SameSite := "lax")
      modifies this
      ensures cookies == old(cookies) + [(key, value, maxAge, expires, path, domain, secure, httponly, samesite)]
      ensures headers == old(headers)
    {
      cookies := cookies + [(key, value, maxAge, expires, path, domain, secure, httponly, samesite)];
    }

    /** `set_session(sessionid)`: a secure, HTTP-only, strict session cookie;
        everything else at its default. */
    method SetSession(sessionid: string)
      modifies this
      ensures cookies == old(cookies) + [(SESSION_COOKIE, sessionid, None, None, "/", None, true, true, "strict")]
      ensures headers == old(headers)
    {
      SetCookie(SESSION_COOKIE, sessionid, secure := true, httponly := true, samesite := "strict");
    }

    /** `unset_session()`: the same cookie with an empty value. */
    method UnsetSession()
      modifies this
      ensures cookies == old(cookies) + [(SESSION_COOKIE, "", None, None, "/", None, true, true, "strict")]
      ensures headers == old(headers)
    {
      SetCookie(SESSION_COOKIE, "", secure := true, httponly := true, samesite := "strict");
    }
  }
}
