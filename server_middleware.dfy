/** The `Auth` middleware of the server
    (server/middlewares/auth_middleware.go): reads the Authorization header,
    requires the exact prefix "Bearer " followed by at least one character,
    and admits the request only when the token verifies as a user token. */
module ServerMiddleware {
  import opened Wrappers
  import opened ServerAuth

  const BearerPrefix: string := "Bearer "

  /** Why a header is refused before the token is looked at. */
  datatype HeaderError = MissingHeader | InvalidFormat

  /** The token carried by an Authorization header. */
  function BearerToken(authHeader: string): (r: Result<string, HeaderError>)
    ensures authHeader == "" ==> r == Err(MissingHeader)
    ensures r.Ok? <==> |authHeader| > |BearerPrefix| && authHeader[..|BearerPrefix|] == BearerPrefix
    ensures r.Ok? ==> |r.value| > 0 && authHeader == BearerPrefix + r.value
  {
    if authHeader == "" then Err(MissingHeader)
    else if |authHeader| <= |BearerPrefix| || authHeader[..|BearerPrefix|] != BearerPrefix then Err(InvalidFormat)
    else Ok(authHeader[|BearerPrefix|..])
  }

  /** The header the SDK sends for a non-empty token is read back as that
      token. */
  lemma BearerRoundTrip(token: string)
    requires |token| > 0
    ensures BearerToken(BearerPrefix + token) == Ok(token)
  {
    assert (BearerPrefix + token)[..|BearerPrefix|] == BearerPrefix;
    assert (BearerPrefix + token)[|BearerPrefix|..] == token;
  }

  /** The prefix alone, or with another case, is refused. */
  lemma PrefixAloneRefused()
    ensures BearerToken("Bearer ") == Err(InvalidFormat)
    ensures BearerToken("bearer abc") == Err(InvalidFormat)
  {
    assert "bearer abc"[..7] == "bearer ";
  }

  /** A JSON response body: `{"error": message}` with a fixed message, an
      error's own text (`err.Error()`), or a handler's payload. */
  datatype Body<+P> = ErrorMessage(message: string) | ErrorText | Payload(payload: P)

  /** The part of a gin context the server touches: the response status and
      body written, whether the chain is aborted, and the stored claims. */
  class GinContext<P> {
    var status: Option<int>
    var body: Option<Body<P>>
    var aborted: bool
    var claims: Option<TokenClaims>

    constructor()
      ensures status == None && body == None && !aborted && claims == None
    {
      status := None;
      body := None;
      aborted := false;
      claims := None;
    }
  }

  /** `Auth`: any refusal writes 401 and aborts; success stores the claims
      and lets the request through. */
  method Auth<P>(c: GinContext<P>, authHeader: string, parseToken: string -> Result<TokenClaims, AuthError>)
    modifies c
    ensures var t := BearerToken(authHeader);
      if t.Ok? && VerifyAuthJWT(t.value, parseToken).Ok? then
        c.status == old(c.status) && c.body == old(c.body) && c.aborted == old(c.aborted)
        && c.claims == Some(VerifyAuthJWT(t.value, parseToken).value)
      else
        c.status == Some(401) && c.aborted && c.claims == old(c.claims)
        && c.body == Some(ErrorMessage(if t == Err(InvalidFormat) then "Invalid authorization format" else "Unauthorized"))
  {
    if authHeader == "" {
      c.status := Some(401);
      c.body := Some(ErrorMessage("Unauthorized"));
      c.aborted := true;
      return;
    }
    if |authHeader| <= |BearerPrefix| || authHeader[..|BearerPrefix|] != BearerPrefix {
      c.status := Some(401);
      c.body := Some(ErrorMessage("Invalid authorization format"));
      c.aborted := true;
      return;
    }
    var token := authHeader[|BearerPrefix|..];
    var verified := VerifyAuthJWT(token, parseToken);
    if verified.Err? {
      c.status := Some(401);
      c.body := Some(ErrorMessage("Unauthorized"));
      c.aborted := true;
      return;
    }
    c.claims := Some(verified.value);
  }
}
