/** The SDK's token holder (api-sdk/lib/api/auth_context.ts): a group token
    and an auth token, set one at a time, the `Authorization` header built
    from the auth token, persistence of the auth token in `localStorage`,
    and the client-side expiry check with its five-minute margin. The JSON
    parser and the clock are parameters. */
module SdkAuthContext {
  import opened Wrappers
  import opened Strings
  import Base64
  import ClientCodec
  import opened SdkStorage

  const LocalStorageKey: string := "auth_token"

  /** Seconds a token stays acceptable after its `exp`. */
  const AuthTokenValidationMargin: int := 300

  /** The JWT payload as the expiry check reads it: its `exp` claim when it
      is an integer number of seconds. */
  datatype Payload = Payload(exp: Option<int>)

  /** `Math.floor(Date.now() / 1000)`. */
  function Seconds(nowMillis: nat): nat
  {
    nowMillis / 1000
  }

  /** `payload.exp && payload.exp + 300 < currentTime`: a missing or zero
      `exp` never expires; any other expires once the clock reaches the
      millisecond that starts second `exp + 301`. */
  function Expired(payload: Payload, nowMillis: nat): (expired: bool)
    ensures expired <==> payload.exp.Some? && payload.exp.value != 0
                         && nowMillis >= (payload.exp.value + AuthTokenValidationMargin + 1) * 1000
  {
    SecondsReached(nowMillis, if payload.exp.Some? then payload.exp.value + AuthTokenValidationMargin + 1 else 0);
    payload.exp.Some? && payload.exp.value != 0
    && payload.exp.value + AuthTokenValidationMargin < Seconds(nowMillis)
  }

  /** The whole second `s` has been reached exactly from millisecond
      `s * 1000` on. */
  lemma SecondsReached(nowMillis: nat, s: int)
    ensures s <= Seconds(nowMillis) <==> s * 1000 <= nowMillis
  {
    var q := nowMillis / 1000;
    assert nowMillis == q * 1000 + nowMillis % 1000;
    if s <= q {
      assert s * 1000 <= q * 1000;
    } else {
      assert s * 1000 >= (q + 1) * 1000;
    }
  }

  // ------------------------------------------------------------ validity

  /** The payload as the check reads it: `JSON.parse(atob(parts[1]))` of a
      token of exactly three "."-separated segments; `None` where the split,
      `atob` or `JSON.parse` fails. */
  function PayloadAsWritten(token: string, parsePayload: string -> Option<Payload>): Option<Payload>
  {
    var parts := Split(token, '.');
    if |parts| != 3 then None
    else
      match Base64.Atob(parts[1])
      case None => None
      case Some(json) => parsePayload(json)
  }

  /** `isTokenValid` as written: a failure anywhere gives false. */
  function IsTokenValidAsWritten(token: string, nowMillis: nat, parsePayload: string -> Option<Payload>): (valid: bool)
    ensures |Split(token, '.')| != 3 ==> !valid
  {
    match PayloadAsWritten(token, parsePayload)
    case None => false
    case Some(payload) => !Expired(payload, nowMillis)
  }

  /** A JWT segment is unpadded base64url (RFC 7519), which `atob` refuses
      whenever it holds '-' or '_': the check then calls a live token
      invalid. */
  lemma AsWrittenRejectsUrlAlphabet(nowMillis: nat, parsePayload: string -> Option<Payload>)
    ensures !IsTokenValidAsWritten("h.-A.s", nowMillis, parsePayload)
    ensures IsTokenValid("h.-A.s", nowMillis, t => Some(Payload(None)))
  {
    SampleSegments();
    AtobRejectsDash();
    UrlSegmentDecodes();
  }

  lemma SampleSegments()
    ensures Split("h.-A.s", '.') == ["h", "-A", "s"]
  {
    TokenSegments("h", "-A", "s");
    assert "h.-A.s" == "h" + "." + "-A" + "." + "s";
  }

  lemma AtobRejectsDash()
    ensures Base64.Atob("-A") == None
  {
    Base64.StripNoWhitespace("-A");
    assert !Base64.IsSymbol("-A"[0]);
  }

  lemma UrlSegmentDecodes()
    ensures ClientCodec.B64uDecode("-A").Some?
  {
    UnmapDash();
    PadTwo();
    assert "+A" + "==" == "+A==";
    assert ClientCodec.B64uDecode("-A") == Base64.Atob("+A==");
    DecodePlusA();
  }

  lemma UnmapDash()
    ensures Replace(Replace("-A", '-', '+'), '_', '/') == "+A"
  {
    var once := Replace("-A", '-', '+');
    assert once[0] == '+' && once[1] == 'A';
    assert once == "+A";
    var twice := Replace(once, '_', '/');
    assert twice[0] == '+' && twice[1] == 'A';
  }

  lemma PadTwo()
    ensures ClientCodec.Equals(ClientCodec.PaddingLength(2)) == "=="
  {
    assert ClientCodec.PaddingLength(2) == 2;
    var equals := ClientCodec.Equals(2);
    assert equals[0] == '=' && equals[1] == '=';
  }

  lemma DecodePlusA()
    ensures Base64.Atob("+A==").Some?
  {
    KeepPlusAWhitespace();
    DropPlusAPadding();
    assert Base64.AllSymbols("+A") by {
      assert Base64.IsSymbol('+') && Base64.IsSymbol('A');
    }
  }

  lemma KeepPlusAWhitespace()
    ensures Base64.StripAsciiWhitespace("+A==") == "+A=="
  {
    Base64.StripNoWhitespace("+A==");
  }

  lemma DropPlusAPadding()
    ensures Base64.DropPadding("+A==") == "+A"
  {
    var padded := "+A==";
    assert padded[2] == '=' && padded[3] == '=';
    assert padded[..2] == "+A";
  }

  /** The payload as evidently intended: the middle segment decoded as
      unpadded base64url (section 5 of RFC 4648). */
  function TokenPayload(token: string, parsePayload: string -> Option<Payload>): Option<Payload>
  {
    var parts := Split(token, '.');
    if |parts| != 3 then None
    else
      match ClientCodec.B64uDecode(parts[1])
      case None => None
      case Some(json) => parsePayload(json)
  }

  /** `isTokenValid` with the payload decoded as base64url. */
  function IsTokenValid(token: string, nowMillis: nat, parsePayload: string -> Option<Payload>): (valid: bool)
    ensures |Split(token, '.')| != 3 ==> !valid
  {
    match TokenPayload(token, parsePayload)
    case None => false
    case Some(payload) => !Expired(payload, nowMillis)
  }

  /** Three segments without "." split into exactly those three. */
  lemma TokenSegments(header: string, payload: string, signature: string)
    requires '.' !in header && '.' !in payload && '.' !in signature
    ensures Split(header + "." + payload + "." + signature, '.') == [header, payload, signature]
  {
    assert header + "." + payload + "." + signature == header + ['.'] + (payload + ['.'] + signature);
    SplitAfterFirst(header, payload + ['.'] + signature, '.');
    TwoPieces(payload, signature, '.');
  }

  /** The corrected check reads back any payload the server encodes: for a
      Latin-1 JSON text, the token `header.b64url(json).signature` has
      exactly the payload `json` parses to. */
  lemma {:induction false} DecodesEncodedPayload(header: string, json: string, signature: string,
                                                 parsePayload: string -> Option<Payload>)
    requires IsLatin1(json)
    requires '.' !in header && '.' !in signature
    ensures TokenPayload(header + "." + ClientCodec.B64uEncode(json).value + "." + signature, parsePayload)
            == parsePayload(json)
  {
    var segment := ClientCodec.B64uEncode(json).value;
    ClientCodec.EncodeAlphabet(json);
    Base64.BodyShape(ToBytes(json));
    assert '.' !in segment by {
      var body := Base64.Body(ToBytes(json));
      forall k | 0 <= k < |segment|
        ensures segment[k] != '.'
      {
        assert Base64.IsSymbol(body[k]);
      }
    }
    TokenSegments(header, segment, signature);
    ClientCodec.RoundTrip(json);
  }

  /** With a non-zero `exp`, a token is valid exactly until `exp + 300`
      seconds: the margin lets it through five minutes after expiry. */
  lemma ExpiryMargin(token: string, nowMillis: nat, parsePayload: string -> Option<Payload>)
    requires TokenPayload(token, parsePayload).Some?
    requires TokenPayload(token, parsePayload).value.exp.Some?
    requires TokenPayload(token, parsePayload).value.exp.value != 0
    ensures IsTokenValid(token, nowMillis, parsePayload)
            <==> Seconds(nowMillis) <= TokenPayload(token, parsePayload).value.exp.value + 300
  {
  }

  /** A token whose payload has no `exp`, or `exp` 0, never expires. */
  lemma NoExpiryNeverExpires(token: string, nowMillis: nat, parsePayload: string -> Option<Payload>)
    requires TokenPayload(token, parsePayload).Some?
    requires TokenPayload(token, parsePayload).value.exp in {None, Some(0)}
    ensures IsTokenValid(token, nowMillis, parsePayload)
  {
  }

  /** Once invalid a token stays invalid: validity at a later time implies
      validity at every earlier time. */
  lemma ValidEarlier(token: string, earlier: nat, later: nat, parsePayload: string -> Option<Payload>)
    requires earlier <= later
    requires IsTokenValid(token, later, parsePayload)
    ensures IsTokenValid(token, earlier, parsePayload)
  {
    SecondsMonotone(earlier, later);
  }

  lemma SecondsMonotone(a: nat, b: nat)
    requires a <= b
    ensures Seconds(a) <= Seconds(b)
  {
  }

  // ------------------------------------------------------------ context

  class AuthContext {
    var groupToken: Option<string>
    var authToken: Option<string>

    constructor()
      ensures groupToken == None && authToken == None
    {
      groupToken := None;
      authToken := None;
    }

    /** At most one of the two tokens is held. */
    predicate Exclusive()
      reads this
    {
      groupToken.None? || authToken.None?
    }

    /** `setGroupToken`: the group token replaces the auth token. */
    method SetGroupToken(token: string)
      modifies this
      ensures groupToken == Some(token) && authToken == None
      ensures Exclusive()
    {
      groupToken := Some(token);
      authToken := None;
    }

    /** `setAuthToken`: the auth token replaces the group token. */
    method SetAuthToken(token: string)
      modifies this
      ensures groupToken == None && authToken == Some(token)
      ensures Exclusive()
    {
      groupToken := None;
      authToken := Some(token);
    }

    /** `getAuthHeader`: "Bearer " and the auth token, or "" when there is
        no auth token or it is empty. */
    function GetAuthHeader(): (header: string)
      reads this
      ensures Truthy(authToken) ==> header == "Bearer " + authToken.value && |header| > 7
      ensures !Truthy(authToken) ==> header == ""
    {
      if Truthy(authToken) then "Bearer " + authToken.value else ""
    }

    /** `isAuthTokenValid`. */
    function IsAuthTokenValid(nowMillis: nat, parsePayload: string -> Option<Payload>): (valid: bool)
      reads this
      ensures valid ==> Truthy(authToken) && |Split(authToken.value, '.')| == 3
    {
      Truthy(authToken) && IsTokenValid(authToken.value, nowMillis, parsePayload)
    }

    /** `isGroupTokenValid`: the same check on the group token. */
    function IsGroupTokenValid(nowMillis: nat, parsePayload: string -> Option<Payload>): (valid: bool)
      reads this
      ensures valid ==> Truthy(groupToken) && |Split(groupToken.value, '.')| == 3
      ensures !Truthy(groupToken) ==> !valid
    {
      Truthy(groupToken) && IsTokenValid(groupToken.value, nowMillis, parsePayload)
    }

    /** `save`: the auth token is stored only when it is valid. */
    method Save(storage: LocalStorage, nowMillis: nat, parsePayload: string -> Option<Payload>)
      returns (saved: bool)
      modifies storage
      ensures saved == IsAuthTokenValid(nowMillis, parsePayload)
      ensures saved ==> storage.items == old(storage.items)[LocalStorageKey := authToken.value]
      ensures !saved ==> storage.items == old(storage.items)
    {
      if !IsAuthTokenValid(nowMillis, parsePayload) {
        return false;
      }
      storage.SetItem(LocalStorageKey, authToken.value);
      return true;
    }

    /** `load`: true at once when the held auth token is valid; otherwise
        the stored token is adopted when it is valid. The group token is
        left as it is, so a load after `setGroupToken` can leave both
        tokens set. */
    method Load(storage: LocalStorage, nowMillis: nat, parsePayload: string -> Option<Payload>)
      returns (loaded: bool)
      modifies this
      ensures loaded <==> IsAuthTokenValid(nowMillis, parsePayload)
      ensures groupToken == old(groupToken)
      ensures old(IsAuthTokenValid(nowMillis, parsePayload)) ==> authToken == old(authToken)
      ensures !old(IsAuthTokenValid(nowMillis, parsePayload)) ==>
        var stored := storage.GetItem(LocalStorageKey);
        loaded == (Truthy(stored) && IsTokenValid(stored.value, nowMillis, parsePayload))
        && authToken == (if loaded then stored else old(authToken))
    {
      if Truthy(authToken) {
        if IsAuthTokenValid(nowMillis, parsePayload) {
          return true;
        }
      }
      var stored := storage.GetItem(LocalStorageKey);
      if Truthy(stored) && IsTokenValid(stored.value, nowMillis, parsePayload) {
        authToken := stored;
        return true;
      }
      return false;
    }

    /** `clear`: both tokens dropped and the stored token removed. */
    method Clear(storage: LocalStorage)
      modifies this, storage
      ensures groupToken == None && authToken == None && Exclusive()
      ensures storage.items == old(storage.items) - {LocalStorageKey}
    {
      groupToken := None;
      authToken := None;
      storage.RemoveItem(LocalStorageKey);
    }
  }
}
