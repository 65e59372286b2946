// The field types of a cookie record, shared by both copies of `Response`.

module CookieFields {
  /** `Literal["lax", "strict", "none"]`. */
  type SameSite = s: string | s == "lax" || s == "strict" || s == "none" witness "lax"

  /** The non-None forms `expires` accepts: a `datetime` (as a timestamp), a
      preformatted string, or an integer. */
  datatype Expires = ExpiresAt(timestamp: int) | ExpiresText(text: string) | ExpiresIn(seconds: int)

  /** The name of the session cookie. */
  const SESSION_COOKIE: string := "reproca_session_id"
}
