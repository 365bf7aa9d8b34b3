/**
 * Access tokens as the controllers see them (backend/src/utils/jwt.ts and
 * the bearer-header parsing of the controllers). Signing and verifying are
 * foreign code: a token is modelled by its claims, and `verify` — which
 * returns null rather than throwing, and checks expiry against the clock —
 * is passed in per request.
 */
module Jwt {
  import opened Wrappers
  import JsString
  import opened UserModel
  import opened SessionModel

  datatype Claims = Claims(sub: UserId, sid: SessionId)

  /** `req.headers.authorization?.split(" ")[1]`, when it is present and not empty. */
  function BearerToken(authorization: Option<string>): (t: Option<string>)
    ensures t.Some? ==> t.value != "" && ' ' !in t.value
  {
    match authorization
    case None => None
    case Some(header) =>
      var words := JsString.Split(header, ' ');
      if |words| >= 2 && words[1] != "" then Some(words[1]) else None
  }

  /** The token of `"<scheme> <token>"` is the second word. */
  lemma BearerTokenOfHeader(scheme: string, token: string)
    requires ' ' !in scheme && ' ' !in token && token != ""
    ensures BearerToken(Some(scheme + " " + token)) == Some(token)
  {
    JsString.SplitAtFirst(scheme, ' ', token);
    JsString.SplitNoSeparator(token, ' ');
  }

  /**
   * `getUserIdFromToken`: the subject of the verified payload, or null when
   * the header has no token or the token does not verify.
   */
  function UserIdFromToken(authorization: Option<string>, verify: string -> Option<Claims>): (r: Option<UserId>)
    ensures BearerToken(authorization).None? ==> r.None?
    ensures BearerToken(authorization).Some? ==>
      match verify(BearerToken(authorization).value)
      case None => r.None?
      case Some(claims) => r == Some(claims.sub)
  {
    match BearerToken(authorization)
    case None => None
    case Some(token) =>
      match verify(token)
      case None => None
      case Some(claims) => Some(claims.sub)
  }
}
