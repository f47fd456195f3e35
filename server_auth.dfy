/** The SRP login flow and token checks of the server
    (server/services/auth_service.go): parsing the `verifier.salt` token,
    the single-use login-session store, session IDs, and the subject rules
    that keep group tokens and user tokens apart. The SRP arithmetic, the
    JWT library and the stores are parameters. */
module ServerAuth {
  import opened Wrappers
  import opened Strings
  import Hex

  /** The two kinds of login, named in the session ID's prefix. */
  datatype LoginSessionType = GroupLogin | UserLogin

  function TypeName(t: LoginSessionType): string
  {
    match t
    case GroupLogin => "group"
    case UserLogin => "user"
  }

  /** An SRP server session: the identity, salt and verifier it was created
      from, and the ephemeral secret the SRP library drew for it. */
  datatype ServerSession = ServerSession(identity: string, salt: seq<byte>, verifier: seq<byte>, ephemeral: nat)

  /** A pending login: the SRP session and the group or user ID it is for.
      It records no login type. */
  datatype LoginSession = LoginSession(serverSession: ServerSession, id: int)

  datatype SrpChallenge = SrpChallenge(salt: string, serverPubKey: string)

  datatype SrpAuth = SrpAuth(clientPubKey: string, clientAuth: string)

  datatype SrpSession = SrpSession(serverAuth: string, sessionKey: string)

  datatype AuthError =
    | VerifierNotValid        // the verifier token is not two "."-separated parts
    | HexDecodeError          // a hex field does not decode
    | GroupNotFound
    | UserNotFound
    | StoreFailure            // any other store error
    | InvalidSession          // unknown login-session ID
    | InvalidAuthData         // an empty client key or proof
    | SrpFailure              // the SRP library rejected the client's values
    | InvalidToken

  /** What a store lookup can return besides the record. */
  datatype StoreError = RecordNotFound | StoreFailed

  datatype GroupRecord = GroupRecord(id: int, secretVerifier: string)

  datatype UserRecord = UserRecord(id: int, email: string, passwordVerifier: string)

  /** The claims of a parsed JWT; `valid` is the library's `token.Valid`. */
  datatype TokenClaims = TokenClaims(valid: bool, subject: string, groupID: int, email: string, isAdmin: bool)

  /** Decimal text of an integer (`strconv.Itoa`). */
  function Itoa(n: int): string
  {
    if n < 0 then "-" + NaturalText(-n) else NaturalText(n)
  }

  function NaturalText(n: nat): string
  {
    if n < 10 then [('0' as int + n) as char] else NaturalText(n / 10) + [('0' as int + n % 10) as char]
  }

  /** `srpGetChallenge`: the stored verifier token is `hex(verifier).hex(salt)`;
      the challenge carries the salt re-encoded and the server's public
      value `B`, computed by the SRP library (`serverPublicKey`). */
  function SrpGetChallenge(id: string, verifier: string, ephemeral: nat,
                           serverPublicKey: ServerSession -> seq<byte>): (r: Result<(ServerSession, SrpChallenge), AuthError>)
    ensures var parts := Split(verifier, '.');
      && (|parts| != 2 ==> r == Err(VerifierNotValid))
      && (r.Ok? <==> |parts| == 2 && Hex.GoDecode(parts[0]).Some? && Hex.GoDecode(parts[1]).Some?)
      && (r.Err? ==> r.error == VerifierNotValid || r.error == HexDecodeError)
      && (r.Ok? ==> r.value.0 == ServerSession(id, Hex.GoDecode(parts[1]).value, Hex.GoDecode(parts[0]).value, ephemeral)
                    && r.value.1.salt == Hex.ToLower(parts[1]))
  {
    var parts := Split(verifier, '.');
    if |parts| != 2 then Err(VerifierNotValid)
    else
      match Hex.GoDecode(parts[0])
      case None => Err(HexDecodeError)
      case Some(verifierBytes) =>
        match Hex.GoDecode(parts[1])
        case None => Err(HexDecodeError)
        case Some(salt) =>
          Hex.EncodeGoDecode(parts[1]);
          var serverSession := ServerSession(id, salt, verifierBytes, ephemeral);
          Ok((serverSession, SrpChallenge(Hex.Encode(salt), Hex.Encode(serverPublicKey(serverSession)))))
  }

  /** The verifier token the SDK registers (`verifier + "." + salt`, both
      lowercase hex) is accepted, and the challenge hands the salt back
      unchanged. */
  lemma ChallengeForRegisteredVerifier(id: string, verifier: seq<byte>, salt: seq<byte>, ephemeral: nat,
                                       serverPublicKey: ServerSession -> seq<byte>)
    ensures var r := SrpGetChallenge(id, Hex.Encode(verifier) + "." + Hex.Encode(salt), ephemeral, serverPublicKey);
      r.Ok? && r.value.0.verifier == verifier && r.value.0.salt == salt && r.value.1.salt == Hex.Encode(salt)
  {
    var v, s := Hex.Encode(verifier), Hex.Encode(salt);
    assert '.' !in v by { forall k | 0 <= k < |v| ensures v[k] != '.' { assert Hex.IsLowerDigit(v[k]); } }
    assert '.' !in s by { forall k | 0 <= k < |s| ensures s[k] != '.' { assert Hex.IsLowerDigit(s[k]); } }
    TwoPieces(v, s, '.');
    assert v + "." + s == v + ['.'] + s;
    Hex.GoDecodeEncode(verifier);
    Hex.GoDecodeEncode(salt);
  }

  /** `generateSessionID`: the type name, "-", then 32 random bytes in hex;
      when the random source fails, the 32-byte digest of the clock reading
      stands in. The ID argument plays no part. */
  function GenerateSessionID(prefix: LoginSessionType, id: int, random: Option<seq<byte>>,
                             fallbackDigest: seq<byte>): (sessionID: string)
    requires random.Some? ==> |random.value| == 32
    requires |fallbackDigest| == 32
    ensures var n := |TypeName(prefix)|;
      && |sessionID| == n + 65
      && sessionID[..n] == TypeName(prefix) && sessionID[n] == '-'
      && Hex.GoDecode(sessionID[n + 1..]) == Some(if random.Some? then random.value else fallbackDigest)
  {
    var randomBytes := if random.Some? then random.value else fallbackDigest;
    Hex.GoDecodeEncode(randomBytes);
    var sessionID := TypeName(prefix) + "-" + Hex.Encode(randomBytes);
    assert sessionID[|TypeName(prefix)| + 1..] == Hex.Encode(randomBytes);
    sessionID
  }

  /** A group login and a user login never share a session ID. */
  lemma SessionIdPrefixesDiffer(g: int, u: int, r1: Option<seq<byte>>, d1: seq<byte>, r2: Option<seq<byte>>, d2: seq<byte>)
    requires r1.Some? ==> |r1.value| == 32
    requires r2.Some? ==> |r2.value| == 32
    requires |d1| == 32 && |d2| == 32
    ensures GenerateSessionID(GroupLogin, g, r1, d1) != GenerateSessionID(UserLogin, u, r2, d2)
  {
    var a, b := GenerateSessionID(GroupLogin, g, r1, d1), GenerateSessionID(UserLogin, u, r2, d2);
    assert a[..5] == "group";
    assert b[..4] == "user";
    assert a[0] != b[0];
  }

  /** The decision `CompleteLogin` takes for a known session: both hex
      fields must decode to non-empty values, then the SRP library
      (`srpCompleteLogin`) must accept them; the result carries the ID the
      session was started for. */
  function CompletionOutcome(session: LoginSession, authData: SrpAuth,
                             srpCompleteLogin: (ServerSession, seq<byte>, seq<byte>) -> Result<(seq<byte>, seq<byte>), AuthError>)
    : (r: Result<(int, SrpSession), AuthError>)
    ensures r.Ok? <==>
      && Hex.GoDecode(authData.clientPubKey).Some? && Hex.GoDecode(authData.clientAuth).Some?
      && |authData.clientPubKey| > 0 && |authData.clientAuth| > 0
      && srpCompleteLogin(session.serverSession, Hex.GoDecode(authData.clientPubKey).value,
                          Hex.GoDecode(authData.clientAuth).value).Ok?
    ensures r.Ok? ==> r.value.0 == session.id
    ensures Hex.GoDecode(authData.clientPubKey).None? || Hex.GoDecode(authData.clientAuth).None? ==> r == Err(HexDecodeError)
  {
    match Hex.GoDecode(authData.clientPubKey)
    case None => Err(HexDecodeError)
    case Some(clientPubKey) =>
      match Hex.GoDecode(authData.clientAuth)
      case None => Err(HexDecodeError)
      case Some(clientAuth) =>
        if |clientPubKey| == 0 || |clientAuth| == 0 then Err(InvalidAuthData)
        else
          match srpCompleteLogin(session.serverSession, clientPubKey, clientAuth)
          case Err(e) => Err(e)
          case Ok((sessionKey, serverAuth)) =>
            Ok((session.id, SrpSession(Hex.Encode(serverAuth), Hex.Encode(sessionKey))))
  }

  /** `VerifyGroupJWT`: the library's parse (`parseToken`) must succeed, the
      token be valid and its subject be "guest". */
  function VerifyGroupJWT(tokenString: string, parseToken: string -> Result<TokenClaims, AuthError>): (r: Result<int, AuthError>)
    ensures r.Ok? <==> parseToken(tokenString).Ok? && parseToken(tokenString).value.valid
                       && parseToken(tokenString).value.subject == "guest"
    ensures r.Ok? ==> r.value == parseToken(tokenString).value.groupID
    ensures r.Err? ==> r.error == InvalidToken
  {
    match parseToken(tokenString)
    case Err(_) => Err(InvalidToken)
    case Ok(claims) =>
      if !claims.valid || claims.subject != "guest" then Err(InvalidToken) else Ok(claims.groupID)
  }

  /** `VerifyAuthJWT`: the token must parse and be valid, and its subject must
      not be "guest". */
  function VerifyAuthJWT(tokenString: string, parseToken: string -> Result<TokenClaims, AuthError>): (r: Result<TokenClaims, AuthError>)
    ensures r.Ok? <==> parseToken(tokenString).Ok? && parseToken(tokenString).value.valid
                       && parseToken(tokenString).value.subject != "guest"
    ensures r.Ok? ==> r.value == parseToken(tokenString).value
    ensures r.Err? ==> r.error == InvalidToken
  {
    match parseToken(tokenString)
    case Err(_) => Err(InvalidToken)
    case Ok(claims) =>
      if !claims.valid || claims.subject == "guest" then Err(InvalidToken) else Ok(claims)
  }

  /** No token passes both checks: a group token never authenticates a user
      and a user token never admits a guest. */
  lemma TokenKindsDisjoint(tokenString: string, parseToken: string -> Result<TokenClaims, AuthError>)
    ensures !(VerifyGroupJWT(tokenString, parseToken).Ok? && VerifyAuthJWT(tokenString, parseToken).Ok?)
  {
  }

  /** The server's login-session store. */
  class AuthService {
    var loginSessions: map<string, LoginSession>

    constructor()
      ensures loginSessions == map[]
    {
      loginSessions := map[];
    }

    /** `InitiateGroupLogin`: looks the group up (`lookup`), builds the
        challenge from its verifier token and stores a session under a new
        ID, recording the requested group ID. Nothing is stored on error. */
    method InitiateGroupLogin(groupID: int, lookup: Result<GroupRecord, StoreError>, ephemeral: nat,
                              serverPublicKey: ServerSession -> seq<byte>,
                              random: Option<seq<byte>>, fallbackDigest: seq<byte>)
      returns (r: Result<(string, SrpChallenge), AuthError>)
      requires random.Some? ==> |random.value| == 32
      requires |fallbackDigest| == 32
      modifies this
      ensures lookup == Err(RecordNotFound) ==> r == Err(GroupNotFound)
      ensures lookup == Err(StoreFailed) ==> r == Err(StoreFailure)
      ensures lookup.Ok? ==>
        var c := SrpGetChallenge(Itoa(lookup.value.id), lookup.value.secretVerifier, ephemeral, serverPublicKey);
        (c.Err? ==> r == Err(c.error)) &&
        (c.Ok? ==> r == Ok((GenerateSessionID(GroupLogin, groupID, random, fallbackDigest), c.value.1)))
      ensures r.Err? ==> loginSessions == old(loginSessions)
      ensures r.Ok? ==> lookup.Ok?
      ensures r.Ok? ==>
        var c := SrpGetChallenge(Itoa(lookup.value.id), lookup.value.secretVerifier, ephemeral, serverPublicKey);
        c.Ok? && loginSessions == old(loginSessions)[r.value.0 := LoginSession(c.value.0, groupID)]
    {
      if lookup.Err? {
        return if lookup.error == RecordNotFound then Err(GroupNotFound) else Err(StoreFailure);
      }
      var group := lookup.value;
      var challenge := SrpGetChallenge(Itoa(group.id), group.secretVerifier, ephemeral, serverPublicKey);
      if challenge.Err? {
        return Err(challenge.error);
      }
      var sessionID := GenerateSessionID(GroupLogin, groupID, random, fallbackDigest);
      loginSessions := loginSessions[sessionID := LoginSession(challenge.value.0, groupID)];
      return Ok((sessionID, challenge.value.1));
    }

    /** `InitiateUserLogin`: the same for a user found by group and email;
        the SRP identity is the email and the session records the user's ID. */
    method InitiateUserLogin(groupID: int, email: string, lookup: Result<UserRecord, StoreError>, ephemeral: nat,
                             serverPublicKey: ServerSession -> seq<byte>,
                             random: Option<seq<byte>>, fallbackDigest: seq<byte>)
      returns (r: Result<(string, SrpChallenge), AuthError>)
      requires random.Some? ==> |random.value| == 32
      requires |fallbackDigest| == 32
      modifies this
      ensures lookup == Err(RecordNotFound) ==> r == Err(UserNotFound)
      ensures lookup == Err(StoreFailed) ==> r == Err(StoreFailure)
      ensures lookup.Ok? ==>
        var c := SrpGetChallenge(lookup.value.email, lookup.value.passwordVerifier, ephemeral, serverPublicKey);
        (c.Err? ==> r == Err(c.error)) &&
        (c.Ok? ==> r == Ok((GenerateSessionID(UserLogin, lookup.value.id, random, fallbackDigest), c.value.1)))
      ensures r.Err? ==> loginSessions == old(loginSessions)
      ensures r.Ok? ==> lookup.Ok?
      ensures r.Ok? ==>
        var c := SrpGetChallenge(lookup.value.email, lookup.value.passwordVerifier, ephemeral, serverPublicKey);
        c.Ok? && loginSessions == old(loginSessions)[r.value.0 := LoginSession(c.value.0, lookup.value.id)]
    {
      if lookup.Err? {
        return if lookup.error == RecordNotFound then Err(UserNotFound) else Err(StoreFailure);
      }
      var user := lookup.value;
      var challenge := SrpGetChallenge(user.email, user.passwordVerifier, ephemeral, serverPublicKey);
      if challenge.Err? {
        return Err(challenge.error);
      }
      var sessionID := GenerateSessionID(UserLogin, user.id, random, fallbackDigest);
      loginSessions := loginSessions[sessionID := LoginSession(challenge.value.0, user.id)];
      return Ok((sessionID, challenge.value.1));
    }

    /** `CompleteLogin`: an unknown session ID is refused; a known one is
        removed whatever happens next, so every session serves one attempt. */
    method CompleteLogin(sessionID: string, authData: SrpAuth,
                         srpCompleteLogin: (ServerSession, seq<byte>, seq<byte>) -> Result<(seq<byte>, seq<byte>), AuthError>)
      returns (r: Result<(int, SrpSession), AuthError>)
      modifies this
      ensures sessionID !in old(loginSessions) ==> r == Err(InvalidSession) && loginSessions == old(loginSessions)
      ensures sessionID in old(loginSessions) ==>
        && loginSessions == old(loginSessions) - {sessionID}
        && r == CompletionOutcome(old(loginSessions)[sessionID], authData, srpCompleteLogin)
      ensures sessionID !in loginSessions
    {
      if sessionID !in loginSessions {
        return Err(InvalidSession);
      }
      var loginSession := loginSessions[sessionID];
      r := CompletionOutcome(loginSession, authData, srpCompleteLogin);
      loginSessions := loginSessions - {sessionID};
    }
  }
}
