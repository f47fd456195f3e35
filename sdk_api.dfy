/** The SDK's entry point `SuperSantaAPI` (api-sdk/lib/index.ts): the guards
    that keep the crypto context consistent across group creation, login
    and joining, logout and session restore, the administrator's draw
    (decrypt the wrapped public keys, rotate them) and the participant's
    reading of the results. Server calls are given as their outcomes. */
module SdkApi {
  import opened Wrappers
  import opened Strings
  import opened SdkErrors
  import opened SdkStorage
  import opened SdkCryptoContext
  import SdkAuthContext
  import DrawRotation

  /** A member as the group endpoint lists them. */
  datatype GroupUser = GroupUser(id: string, username: string, email: string, isAdmin: bool)

  /** The group as `getGroup` returns it; `results` is absent before the
      draw. */
  datatype GroupModel = GroupModel(id: string, results: Option<seq<string>>, users: seq<GroupUser>)

  /** What `getUser` answers during `auth`: the user, a 401
      (AUTH_ERROR), or any other failure (UNKNOWN_ERROR). */
  datatype UserFetch = Fetched(user: GroupUser) | Unauthorized | FetchFailed

  /** The encoded values `createGroup` sends for the group and its
      administrator. */
  datatype GroupSecrets = GroupSecrets(secretVerifier: string, passwordVerifier: string,
                                       privateKeyEncrypted: string, publicKeySecret: string)

  // ------------------------------------------------------------ draw

  /** `Promise.all(keys.map(decryptPublicKey))`: every key decrypted, or the
      error of the first key, in index order, that fails. */
  function DecryptAll(keys: seq<string>, decryptPublicKey: string -> Result<string, Exception>)
    : (r: Result<seq<string>, Exception>)
    ensures r.Ok? ==>
      |r.value| == |keys| && forall i :: 0 <= i < |keys| ==> decryptPublicKey(keys[i]) == Ok(r.value[i])
    ensures r.Err? ==>
      exists i :: 0 <= i < |keys| && decryptPublicKey(keys[i]) == Err(r.error) && FirstErrorAt(keys, decryptPublicKey, i)
  {
    if |keys| == 0 then Ok([])
    else
      match decryptPublicKey(keys[0])
      case Err(e) => Err(e)
      case Ok(first) =>
        match DecryptAll(keys[1..], decryptPublicKey)
        case Err(e) =>
          assert exists i :: 0 <= i < |keys| && decryptPublicKey(keys[i]) == Err(e)
                              && FirstErrorAt(keys, decryptPublicKey, i) by {
            var i :| 0 <= i < |keys| - 1 && decryptPublicKey(keys[1..][i]) == Err(e)
                     && FirstErrorAt(keys[1..], decryptPublicKey, i);
            assert keys[i + 1] == keys[1..][i];
            forall j | 0 <= j < i + 1
              ensures decryptPublicKey(keys[j]).Ok?
            {
              if j > 0 {
                assert keys[j] == keys[1..][j - 1];
              }
            }
          }
          Err(e)
        case Ok(rest) => Ok([first] + rest)
  }

  /** Every key before index `i` decrypts. */
  ghost predicate FirstErrorAt(keys: seq<string>, decryptPublicKey: string -> Result<string, Exception>, i: int)
    requires 0 <= i <= |keys|
  {
    forall j :: 0 <= j < i ==> decryptPublicKey(keys[j]).Ok?
  }

  /** The draw's error mapping: a key that does not unwrap or is not a
      valid public key is BAD_DRAW, anything else UNKNOWN_ERROR. */
  function DrawError(e: Exception): (mapped: Exception)
    ensures mapped == ApiError(BadDraw) <==> e in {CryptoError(UnwrapFailed), ContextError(InvalidPublicKey)}
    ensures mapped != ApiError(BadDraw) ==> mapped == ApiError(UnknownError)
  {
    if e == CryptoError(UnwrapFailed) then ApiError(BadDraw)
    else if e == ContextError(InvalidPublicKey) then ApiError(BadDraw)
    else ApiError(UnknownError)
  }

  /** What the administrator sends to `finishDraw` for the decrypted keys
      and the random number: a permutation of the keys in which position i
      holds key (i + s) mod N, where the shift s lies in [1, N-1] as soon as
      there are two keys, so no position keeps its own key. */
  ghost predicate ShiftedDraw(keys: seq<string>, sent: seq<string>, random: real)
    requires 0.0 <= random < 1.0
  {
    var n := |keys|;
    var s := DrawRotation.ShiftAmount(random, n);
    |sent| == n && multiset(sent) == multiset(keys)
    && (n >= 2 ==> 1 <= s <= n - 1)
    && (n >= 1 ==> forall i :: 0 <= i < n ==> sent[i] == keys[(i + s) % n])
  }

  /** The rotation the draw computes is such a shifted draw. */
  lemma RotationIsShiftedDraw(keys: seq<string>, random: real)
    requires 0.0 <= random < 1.0
    ensures ShiftedDraw(keys, DrawRotation.Rotate(keys, DrawRotation.ShiftAmount(random, |keys|)), random)
  {
    var s := DrawRotation.ShiftAmount(random, |keys|);
    if |keys| >= 1 {
      DrawRotation.RotateAt(keys, s);
    }
  }

  // ------------------------------------------------------------ results

  /** The first result whose decryption is a truthy ID. */
  function FirstDecrypted(results: seq<string>, decryptResult: string -> Option<string>): (id: Option<string>)
    ensures id.Some? ==> id.value != "" && exists i :: 0 <= i < |results| && decryptResult(results[i]) == id
    ensures id.None? ==> forall i :: 0 <= i < |results| ==> !Truthy(decryptResult(results[i]))
  {
    if |results| == 0 then None
    else if Truthy(decryptResult(results[0])) then decryptResult(results[0])
    else
      var rest := FirstDecrypted(results[1..], decryptResult);
      assert rest.Some? ==> decryptResult(results[1..][0]) == rest || exists i :: 1 <= i < |results[1..]| && decryptResult(results[1..][i]) == rest;
      rest
  }

  /** `users.find(user => user.id === id)`. */
  function FindUser(users: seq<GroupUser>, id: string): (u: Option<GroupUser>)
    ensures u.Some? ==> u.value in users && u.value.id == id
    ensures u.None? ==> forall i :: 0 <= i < |users| ==> users[i].id != id
  {
    if |users| == 0 then None
    else if users[0].id == id then Some(users[0])
    else FindUser(users[1..], id)
  }

  // ------------------------------------------------------------ API

  class SuperSantaApi {
    const cryptoContext: CryptoContext
    const authContext: SdkAuthContext.AuthContext
    /** The browser's `localStorage`, shared by both contexts. */
    const storage: LocalStorage

    constructor(storage: LocalStorage)
      ensures this.storage == storage
      ensures fresh(cryptoContext) && fresh(authContext)
      ensures cryptoContext.secretKey == None && cryptoContext.privateKey == None
      ensures authContext.groupToken == None && authContext.authToken == None
    {
      this.storage := storage;
      cryptoContext := new CryptoContext();
      authContext := new SdkAuthContext.AuthContext();
    }

    /** `createGroup`: BAD_CRYPTO_CONTEXT, with nothing changed, when either
        key is already held. Past the guard the secret key is installed as
        soon as its verifier is derived and the private key before the
        wraps, so a later failure leaves them in place (and a retry meets
        the guard). On success the encoded verifiers and the two wrapped-key
        tokens are what is sent to the server. */
    method CreateGroup(getSecretVerifier: Result<Verifier, Exception>, getPasswordVerifier: Result<Verifier, Exception>,
                       keyPair: KeyPair, ivPrivateKey: seq<byte>, ivPublicKey: seq<byte>, p: Primitives)
      returns (r: Result<GroupSecrets, Exception>)
      modifies cryptoContext
      ensures old(cryptoContext.HasSecretKey() || cryptoContext.HasPrivateKey()) ==>
        r == Err(ApiError(BadCryptoContext))
        && cryptoContext.secretKey == old(cryptoContext.secretKey)
        && cryptoContext.privateKey == old(cryptoContext.privateKey)
      ensures !old(cryptoContext.HasSecretKey() || cryptoContext.HasPrivateKey()) && getSecretVerifier.Err? ==>
        r == Err(getSecretVerifier.error) && cryptoContext.secretKey == None && cryptoContext.privateKey == None
      ensures !old(cryptoContext.HasSecretKey() || cryptoContext.HasPrivateKey()) && getSecretVerifier.Ok? ==>
        cryptoContext.secretKey == Some(getSecretVerifier.value.key)
      ensures !old(cryptoContext.HasSecretKey() || cryptoContext.HasPrivateKey()) && getSecretVerifier.Ok?
              && getPasswordVerifier.Err? ==>
        r == Err(getPasswordVerifier.error) && cryptoContext.privateKey == None
      ensures !old(cryptoContext.HasSecretKey() || cryptoContext.HasPrivateKey()) && getSecretVerifier.Ok?
              && getPasswordVerifier.Ok? ==>
        cryptoContext.privateKey == Some(keyPair.privateKey)
        && var keys := WrappedUserKeys(getSecretVerifier.value.key, getPasswordVerifier.value, keyPair,
                                       ivPrivateKey, ivPublicKey, p);
           (keys.Err? ==> r == Err(keys.error))
           && (keys.Ok? ==>
                 r == Ok(GroupSecrets(EncodedVerifier(getSecretVerifier.value), keys.value.passwordVerifierEncoded,
                                      keys.value.privateKeyEncryptedEncoded, keys.value.publicKeySecretEncoded)))
    {
      if cryptoContext.HasSecretKey() || cryptoContext.HasPrivateKey() {
        return Err(ApiError(BadCryptoContext));
      }
      var secretVerifierEncoded := cryptoContext.CreateSecretKey(getSecretVerifier);
      if secretVerifierEncoded.Err? {
        return Err(secretVerifierEncoded.error);
      }
      var userKeys := cryptoContext.CreateUserKeys(getPasswordVerifier, keyPair, ivPrivateKey, ivPublicKey, p);
      if userKeys.Err? {
        return Err(userKeys.error);
      }
      var keys := userKeys.value;
      return Ok(GroupSecrets(secretVerifierEncoded.value, keys.passwordVerifierEncoded,
                             keys.privateKeyEncryptedEncoded, keys.publicKeySecretEncoded));
    }

    /** `loginUser`: BAD_CRYPTO_CONTEXT, with nothing changed, without a
        secret key. Then the password key and the user's wrapped private
        key from the server (`login`) are used to import the private key,
        and the context is saved: both keys' exports under
        "cryptoContext". A failed export leaves the imported key installed
        and storage as it was. */
    method LoginUser(login: Result<(CryptoKey, string), Exception>, p: Primitives, json: JsonCodec)
      returns (r: Result<(), Exception>)
      modifies cryptoContext, storage
      ensures cryptoContext.secretKey == old(cryptoContext.secretKey)
      ensures !old(cryptoContext.HasSecretKey()) ==>
        r == Err(ApiError(BadCryptoContext))
        && cryptoContext.privateKey == old(cryptoContext.privateKey) && storage.items == old(storage.items)
      ensures old(cryptoContext.HasSecretKey()) && login.Err? ==>
        r == Err(login.error)
        && cryptoContext.privateKey == old(cryptoContext.privateKey) && storage.items == old(storage.items)
      ensures old(cryptoContext.HasSecretKey()) && login.Ok? ==>
        var imported := ImportedKey(login.value.0, login.value.1, p);
        (imported.Err? ==>
           r == Err(imported.error)
           && cryptoContext.privateKey == old(cryptoContext.privateKey) && storage.items == old(storage.items))
        && (imported.Ok? ==>
              cryptoContext.privateKey == Some(imported.value) && cryptoContext.IsComplete()
              && var s := p.exportAesKey(cryptoContext.secretKey.value);
                 var k := p.exportRsaKey(imported.value);
                 (s.Some? && k.Some? ==>
                    r.Ok? && storage.items == old(storage.items)[LocalStorageKey := json.stringify(s.value, k.value)])
                 && (s.None? || k.None? ==>
                       r == Err(CryptoError(ExportFailed)) && storage.items == old(storage.items)))
    {
      if !cryptoContext.HasSecretKey() {
        return Err(ApiError(BadCryptoContext));
      }
      if login.Err? {
        return Err(login.error);
      }
      var (passwordKey, privateKeyEncrypted) := login.value;
      var imported := cryptoContext.ImportPrivateKey(passwordKey, privateKeyEncrypted, p);
      if imported.Err? {
        return Err(imported.error);
      }
      r := cryptoContext.SaveToLocalStorage(storage, p, json);
    }

    /** `joinGroup`: BAD_CRYPTO_CONTEXT, with nothing changed, without a
        secret key; then the user's keys are created under the group's
        secret key, which is OVERWRITE when a private key is already held.
        The tokens returned are those `createUserKeys` emits. */
    method JoinGroup(getPasswordVerifier: Result<Verifier, Exception>, keyPair: KeyPair,
                     ivPrivateKey: seq<byte>, ivPublicKey: seq<byte>, p: Primitives)
      returns (r: Result<UserKeys, Exception>)
      modifies cryptoContext
      ensures cryptoContext.secretKey == old(cryptoContext.secretKey)
      ensures !old(cryptoContext.HasSecretKey()) ==>
        r == Err(ApiError(BadCryptoContext)) && cryptoContext.privateKey == old(cryptoContext.privateKey)
      ensures old(cryptoContext.HasSecretKey()) && old(cryptoContext.HasPrivateKey()) ==>
        r == Err(ContextError(Overwrite)) && cryptoContext.privateKey == old(cryptoContext.privateKey)
      ensures old(cryptoContext.HasSecretKey()) && !old(cryptoContext.HasPrivateKey()) && getPasswordVerifier.Err? ==>
        r == Err(getPasswordVerifier.error) && cryptoContext.privateKey == None
      ensures old(cryptoContext.HasSecretKey()) && !old(cryptoContext.HasPrivateKey()) && getPasswordVerifier.Ok? ==>
        cryptoContext.privateKey == Some(keyPair.privateKey)
        && r == WrappedUserKeys(cryptoContext.secretKey.value, getPasswordVerifier.value, keyPair,
                                ivPrivateKey, ivPublicKey, p)
    {
      if !cryptoContext.HasSecretKey() {
        return Err(ApiError(BadCryptoContext));
      }
      r := cryptoContext.CreateUserKeys(getPasswordVerifier, keyPair, ivPrivateKey, ivPublicKey, p);
    }

    /** `logout`: both contexts cleared and both stored entries removed. */
    method Logout()
      modifies authContext, cryptoContext, storage
      ensures authContext.groupToken == None && authContext.authToken == None
      ensures cryptoContext.secretKey == None && cryptoContext.privateKey == None
      ensures storage.items == old(storage.items) - {SdkAuthContext.LocalStorageKey, LocalStorageKey}
    {
      authContext.Clear(storage);
      cryptoContext.Clear(storage);
    }

    /** `auth`: restores the crypto context and the auth token from storage,
        then asks the server for the user (`fetchUser`). A failed load, or
        a 401 from the server, logs everything out and gives no user. Any
        other failure of the request is rethrown as UNKNOWN_ERROR with both
        contexts left loaded. */
    method Auth(p: Primitives, json: JsonCodec, nowMillis: nat,
                parsePayload: string -> Option<SdkAuthContext.Payload>, fetchUser: UserFetch)
      returns (r: Result<Option<GroupUser>, Exception>)
      modifies authContext, cryptoContext, storage
      ensures r.Ok? && r.value.Some? ==>
        fetchUser == Fetched(r.value.value)
        && cryptoContext.IsComplete() && authContext.IsAuthTokenValid(nowMillis, parsePayload)
      ensures r == Ok(None) ==>
        authContext.groupToken == None && authContext.authToken == None
        && cryptoContext.secretKey == None && cryptoContext.privateKey == None
        && storage.items == old(storage.items) - {SdkAuthContext.LocalStorageKey, LocalStorageKey}
      ensures r.Err? ==>
        fetchUser == FetchFailed && r.error == AuthApiError(UnknownAuthError)
        && cryptoContext.IsComplete() && authContext.IsAuthTokenValid(nowMillis, parsePayload)
      ensures r != Ok(None) ==> storage.items == old(storage.items)
      ensures fetchUser.Unauthorized? ==> r == Ok(None)
    {
      var loaded := cryptoContext.LoadFromLocalStorage(storage, p, json);
      if loaded.Err? {
        Logout();
        return Ok(None);
      }
      var valid := authContext.Load(storage, nowMillis, parsePayload);
      if !valid {
        Logout();
        return Ok(None);
      }
      match fetchUser
      case Fetched(user) =>
        return Ok(Some(user));
      case Unauthorized =>
        authContext.Clear(storage);
        Logout();
        return Ok(None);
      case FetchFailed =>
        return Err(AuthApiError(UnknownAuthError));
    }

    /** `draw`: BAD_CRYPTO_CONTEXT without a secret key; the wrapped public
        keys from `initDraw` are decrypted (a failure is mapped to BAD_DRAW
        or UNKNOWN_ERROR and nothing is sent) and rotated by the shift drawn
        from `random`. When every key decrypts the draw succeeds, and the
        result is the list sent to `finishDraw`: a permutation in which
        position i holds key (i + s) mod N, with 1 <= s <= N-1 as soon as
        there are two keys. */
    method Draw(initDraw: Result<seq<string>, Exception>, decryptPublicKey: string -> Result<string, Exception>,
                random: real)
      returns (r: Result<seq<string>, Exception>)
      requires 0.0 <= random < 1.0
      ensures !cryptoContext.HasSecretKey() ==> r == Err(ApiError(BadCryptoContext))
      ensures cryptoContext.HasSecretKey() && initDraw.Err? ==> r == Err(initDraw.error)
      ensures cryptoContext.HasSecretKey() && initDraw.Ok? && DecryptAll(initDraw.value, decryptPublicKey).Err? ==>
        r == Err(DrawError(DecryptAll(initDraw.value, decryptPublicKey).error))
      ensures cryptoContext.HasSecretKey() && initDraw.Ok? && DecryptAll(initDraw.value, decryptPublicKey).Ok? ==>
        r.Ok?
      ensures r.Ok? ==>
        initDraw.Ok? && DecryptAll(initDraw.value, decryptPublicKey).Ok?
        && ShiftedDraw(DecryptAll(initDraw.value, decryptPublicKey).value, r.value, random)
    {
      if !cryptoContext.HasSecretKey() {
        return Err(ApiError(BadCryptoContext));
      }
      if initDraw.Err? {
        return Err(initDraw.error);
      }
      var publicKeysSecret := initDraw.value;
      var publicKeys := DecryptAll(publicKeysSecret, decryptPublicKey);
      if publicKeys.Err? {
        return Err(DrawError(publicKeys.error));
      }
      var keys := publicKeys.value;
      var shiftAmount := DrawRotation.ShiftAmount(random, |publicKeysSecret|);
      var shiftedPublicKeys := DrawRotation.Rotate(keys, shiftAmount);
      RotationIsShiftedDraw(keys, random);
      return Ok(shiftedPublicKeys);
    }

    /** `parseResult`: BAD_CRYPTO_CONTEXT unless the context is complete;
        no result yet when the results are absent or empty; otherwise the
        member whose ID is the first result that decrypts, and BAD_RESULT
        when none decrypts or the ID is not a member. */
    method ParseResult(group: GroupModel, decryptResult: string -> Option<string>)
      returns (r: Result<Option<GroupUser>, Exception>)
      ensures !cryptoContext.IsComplete() ==> r == Err(ApiError(BadCryptoContext))
      ensures cryptoContext.IsComplete() && (group.results.None? || group.results.value == []) ==> r == Ok(None)
      ensures cryptoContext.IsComplete() && group.results.Some? && group.results.value != [] ==>
        var id := FirstDecrypted(group.results.value, decryptResult);
        (id.Some? && FindUser(group.users, id.value).Some? ==> r == Ok(FindUser(group.users, id.value)))
        && (id.None? || FindUser(group.users, id.value).None? ==> r == Err(ApiError(BadResult)))
    {
      if !cryptoContext.IsComplete() {
        return Err(ApiError(BadCryptoContext));
      }
      if group.results.None? || |group.results.value| == 0 {
        return Ok(None);
      }
      var results := group.results.value;
      var userID: Option<string> := None;
      var i := 0;
      while i < |results|
        invariant 0 <= i <= |results|
        invariant FirstDecrypted(results, decryptResult) == FirstDecrypted(results[i..], decryptResult)
        invariant !Truthy(userID)
      {
        userID := decryptResult(results[i]);
        if Truthy(userID) {
          assert FirstDecrypted(results[i..], decryptResult) == userID;
          break;
        }
        assert results[i..][1..] == results[i + 1..];
        i := i + 1;
      }
      if Truthy(userID) {
        var user := FindUser(group.users, userID.value);
        if user.Some? {
          return Ok(user);
        }
      } else {
        assert FirstDecrypted(results, decryptResult) == None;
      }
      return Err(ApiError(BadResult));
    }
  }
}
