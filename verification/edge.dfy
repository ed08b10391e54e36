/** Request details both edge functions read the same way: the client IP
    used as the rate-limit key and the bearer-token check. */
module Edge {
  import opened Wrappers
  import opened Text

  const UNKNOWN_IP: string := "unknown"

  /** `req.headers.get('x-forwarded-for') || 'unknown'`: a missing or empty
      header falls back to one shared key. */
  function ClientIp(header: Option<string>): (ip: string)
    ensures |ip| > 0
    ensures header.Some? && |header.value| > 0 ==> ip == header.value
    ensures !(header.Some? && |header.value| > 0) ==> ip == UNKNOWN_IP
  {
    if header.Some? && |header.value| > 0 then header.value else UNKNOWN_IP
  }

  const BEARER: string := "Bearer "

  /** The `Authorization` header is present, starts with `Bearer `, and the
      rest (the header with its first `Bearer ` removed) equals the configured
      token; an unset token accepts nothing. */
  predicate Authorised(header: Option<string>, token: Option<string>) {
    header.Some? && StartsWith(header.value, BEARER)
    && token.Some? && header.value[|BEARER|..] == token.value
  }

  /** Only the exact header `Bearer <token>` is accepted. */
  lemma AuthorisedIff(header: Option<string>, token: Option<string>)
    ensures Authorised(header, token) <==> token.Some? && header == Some(BEARER + token.value)
  {
    if token.Some? && header == Some(BEARER + token.value) {
      assert header.value[..|BEARER|] == BEARER;
      assert header.value[|BEARER|..] == token.value;
    }
    if Authorised(header, token) {
      assert header.value == header.value[..|BEARER|] + header.value[|BEARER|..];
    }
  }

  /** Without a configured token every request is refused. */
  lemma NoTokenRefusesAll(header: Option<string>)
    ensures !Authorised(header, None)
  {
  }
}
