/**
 * What the handlers hand back to the web framework, reduced to the decisions they make: the status,
 * the body, the redirect target and the cookie they set.
 */
module Http {
  import opened Wrappers
  import opened Values

  /** A `Set-Cookie` header as the handlers build it; the max-age is in seconds. */
  datatype SetCookie = SetCookie(name: string, value: string, path: string, maxAge: int, httpOnly: bool)

  datatype Response =
    | Json(body: Row)                                      // 200 with the record
    | NotFound                                             // 404 "Not Found"
    | Forbidden                                            // 403 "Not Authorized"
    | BadRequest(message: string)                          // 400 with a message
    | Redirect(location: string, cookie: Option<SetCookie>) // 307 Temporary Redirect
    | Rejected                                             // an extractor's unit rejection: empty response

  /** Request headers by lower-case name; a header map holds one value per name here. */
  type Headers = map<string, string>

  /** Request cookies by name. */
  type Jar = map<string, string>

  const SessionCookie: string := "session_id"

  /** `Owner-Id`, as the header map stores it (header names are case-insensitive). */
  const OwnerIdHeaderName: string := "owner-id"

  /** A byte `HeaderValue::to_str` accepts: visible ASCII or a tab. */
  predicate VisibleAscii(c: char)
  {
    c == '\t' || (' ' <= c <= '~')
  }

  /** `HeaderValue::to_str` succeeds exactly on visible ASCII values. */
  predicate HeaderText(v: string)
  {
    forall i :: 0 <= i < |v| ==> VisibleAscii(v[i])
  }

  /**
   * `Cookie::value_trimmed`: a value of at least two characters that starts and ends with `"` loses
   * those two quotes; any other value is kept as is.
   */
  function ValueTrimmed(v: string): (r: string)
    ensures r == v || v == "\"" + r + "\""
    ensures |v| < 2 || v[0] != '"' || v[|v| - 1] != '"' ==> r == v
  {
    if |v| >= 2 && v[0] == '"' && v[|v| - 1] == '"' then v[1..|v| - 1] else v
  }

  /** Quoting a value and trimming it gives the value back. */
  lemma TrimQuoted(v: string)
    ensures ValueTrimmed("\"" + v + "\"") == v
  {
    var q := "\"" + v + "\"";
    assert q[1..|q| - 1] == v;
  }
}
