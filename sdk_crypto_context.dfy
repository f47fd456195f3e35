/** The SDK's key holder (api-sdk/lib/crypto_context.ts): two key slots, the
    group's secret key and the user's private key, filled by the guarded
    creation operations, the unconditional setters and the import of a
    wrapped private key, and persisted to `localStorage` as a JSON object of
    exported keys. WebCrypto, SRP and JSON are parameters; the random
    values they would draw are given per call. */
module SdkCryptoContext {
  import opened Wrappers
  import opened Strings
  import opened SdkErrors
  import opened SdkStorage
  import opened SdkCryptoUtils

  const LocalStorageKey: string := "cryptoContext"

  /** A WebCrypto key, known only by identity. */
  datatype CryptoKey = CryptoKey(handle: nat)

  /** What `srp.getVerifier` yields: hex verifier and salt, and the AES key
      derived from the password or secret. */
  datatype Verifier = Verifier(verifier: string, salt: string, key: CryptoKey)

  datatype KeyPair = KeyPair(publicKey: CryptoKey, privateKey: CryptoKey)

  /** The stored JSON object as the load reads it: each field when it is a
      string (`None` for a missing or non-string field). */
  datatype StoredKeys = StoredKeys(secretKey: Option<string>, privateKey: Option<string>)

  /** The WebCrypto calls of the context. Each catches the browser's error
      and throws its own code, so only success matters here: `None` is a
      failure (WRAP_FAILED, UNWRAP_FAILED, EXPORT_FAILED, IMPORT_FAILED). */
  datatype Primitives = Primitives(
    wrapKey: (CryptoKey, CryptoKey, seq<byte>) -> Option<seq<byte>>,    // key, wrapping key, IV
    unwrapKey: (seq<byte>, CryptoKey, seq<byte>) -> Option<CryptoKey>,  // wrapped key, wrapping key, IV
    exportAesKey: CryptoKey -> Option<string>,
    exportRsaKey: CryptoKey -> Option<string>,
    importAesKey: string -> Option<CryptoKey>,
    importRsaKey: string -> Option<CryptoKey>)

  /** `JSON.stringify({secretKey, privateKey})` and the `JSON.parse` of the
      load; `None` where parsing throws. */
  datatype JsonCodec = JsonCodec(stringify: (string, string) -> string, parse: string -> Option<StoredKeys>)

  /** The three encoded values `createUserKeys` returns. */
  datatype UserKeys = UserKeys(passwordVerifierEncoded: string, publicKeySecretEncoded: string,
                               privateKeyEncryptedEncoded: string)

  /** The encoded verifier: `verifier + "." + salt`. */
  function EncodedVerifier(v: Verifier): string
  {
    v.verifier + "." + v.salt
  }

  /** The outcome of `createUserKeys` once its guards pass: the private key
      wrapped under the password key and the public key under the group's
      secret key, each with its own IV, emitted as `iv.wrapped` tokens
      beside the encoded verifier; WRAP_FAILED when either wrap fails. */
  function WrappedUserKeys(secretKey: CryptoKey, v: Verifier, keyPair: KeyPair,
                           ivPrivateKey: seq<byte>, ivPublicKey: seq<byte>, p: Primitives)
    : Result<UserKeys, Exception>
  {
    var wrappedPrivate := p.wrapKey(keyPair.privateKey, v.key, ivPrivateKey);
    var wrappedPublic := p.wrapKey(keyPair.publicKey, secretKey, ivPublicKey);
    if wrappedPrivate.None? || wrappedPublic.None? then Err(CryptoError(WrapFailed))
    else Ok(UserKeys(EncodedVerifier(v), WrappedToBase64(wrappedPublic.value, ivPublicKey),
                     WrappedToBase64(wrappedPrivate.value, ivPrivateKey)))
  }

  /** Unwrapping undoes wrapping with the same key and IV: the property of
      AES key wrapping the SDK relies on. */
  ghost predicate UnwrapInvertsWrap(p: Primitives)
  {
    forall key, wrappingKey, iv :: p.wrapKey(key, wrappingKey, iv).Some? ==>
      p.unwrapKey(p.wrapKey(key, wrappingKey, iv).value, wrappingKey, iv) == Some(key)
  }

  /** The key `importPrivateKey` installs: the token's IV and wrapped key,
      unwrapped with the password key. */
  function ImportedKey(passwordKey: CryptoKey, wrappedPrivateKeyBase64: string, p: Primitives)
    : (r: Result<CryptoKey, Exception>)
    ensures r.Err? ==> r.error in {CryptoError(DecodeFailed), CryptoError(UnwrapFailed)}
    ensures Base64ToWrapped(wrappedPrivateKeyBase64).Err? ==> r == Err(CryptoError(DecodeFailed))
  {
    match Base64ToWrapped(wrappedPrivateKeyBase64)
    case Err(e) => Err(e)
    case Ok(w) =>
      match p.unwrapKey(w.wrappedKey, passwordKey, w.iv)
      case None => Err(CryptoError(UnwrapFailed))
      case Some(key) => Ok(key)
  }

  /** The private-key token `createUserKeys` emits is read back by
      `importPrivateKey` as the very key that was wrapped. */
  lemma ImportRestoresWrappedKey(privateKey: CryptoKey, passwordKey: CryptoKey, iv: seq<byte>, p: Primitives)
    requires UnwrapInvertsWrap(p)
    requires p.wrapKey(privateKey, passwordKey, iv).Some?
    ensures ImportedKey(passwordKey, WrappedToBase64(p.wrapKey(privateKey, passwordKey, iv).value, iv), p)
            == Ok(privateKey)
  {
    WrappedRoundTrip(p.wrapKey(privateKey, passwordKey, iv).value, iv);
  }

  /** Both tokens `createUserKeys` emits unwrap to the keys they carry: the
      private key under the password key, as a later login imports it, and
      the public key under the group's secret key, as the draw reads it. */
  lemma UserKeysUnwrap(secretKey: CryptoKey, v: Verifier, keyPair: KeyPair,
                       ivPrivateKey: seq<byte>, ivPublicKey: seq<byte>, p: Primitives)
    requires UnwrapInvertsWrap(p)
    requires WrappedUserKeys(secretKey, v, keyPair, ivPrivateKey, ivPublicKey, p).Ok?
    ensures var keys := WrappedUserKeys(secretKey, v, keyPair, ivPrivateKey, ivPublicKey, p).value;
      ImportedKey(v.key, keys.privateKeyEncryptedEncoded, p) == Ok(keyPair.privateKey)
      && ImportedKey(secretKey, keys.publicKeySecretEncoded, p) == Ok(keyPair.publicKey)
  {
    ImportRestoresWrappedKey(keyPair.privateKey, v.key, ivPrivateKey, p);
    ImportRestoresWrappedKey(keyPair.publicKey, secretKey, ivPublicKey, p);
  }

  /** Exported keys are non-empty strings that import back to the same key. */
  ghost predicate ExportImportInverse(p: Primitives)
  {
    (forall key :: p.exportAesKey(key).Some? ==>
       p.exportAesKey(key).value != "" && p.importAesKey(p.exportAesKey(key).value) == Some(key))
    && (forall key :: p.exportRsaKey(key).Some? ==>
          p.exportRsaKey(key).value != "" && p.importRsaKey(p.exportRsaKey(key).value) == Some(key))
  }

  /** `JSON.stringify` writes a non-empty text (an object starts with "{")
      and `JSON.parse` reads back both of its fields. */
  ghost predicate JsonRoundTrip(json: JsonCodec)
  {
    forall s, k :: json.stringify(s, k) != ""
      && json.parse(json.stringify(s, k)) == Some(StoredKeys(Some(s), Some(k)))
  }

  class CryptoContext {
    var secretKey: Option<CryptoKey>
    var privateKey: Option<CryptoKey>

    constructor()
      ensures secretKey == None && privateKey == None
    {
      secretKey := None;
      privateKey := None;
    }

    /** `setSecretKey`: overwrites without a check. */
    method SetSecretKey(key: CryptoKey)
      modifies this
      ensures secretKey == Some(key) && privateKey == old(privateKey)
    {
      secretKey := Some(key);
    }

    function HasSecretKey(): (has: bool)
      reads this
      ensures has <==> secretKey != None
    {
      secretKey.Some?
    }

    /** `setPrivateKey`: overwrites without a check. */
    method SetPrivateKey(key: CryptoKey)
      modifies this
      ensures privateKey == Some(key) && secretKey == old(secretKey)
    {
      privateKey := Some(key);
    }

    function HasPrivateKey(): (has: bool)
      reads this
      ensures has <==> privateKey != None
    {
      privateKey.Some?
    }

    /** `isComplete`: both slots are filled. */
    function IsComplete(): (complete: bool)
      reads this
      ensures complete <==> HasSecretKey() && HasPrivateKey()
    {
      secretKey.Some? && privateKey.Some?
    }

    /** `importPrivateKey`: decodes the token and unwraps the key with the
        password key; on success the private key is replaced whatever it
        was, on failure nothing changes. */
    method ImportPrivateKey(passwordKey: CryptoKey, wrappedPrivateKeyBase64: string, p: Primitives)
      returns (r: Result<(), Exception>)
      modifies this
      ensures secretKey == old(secretKey)
      ensures var imported := ImportedKey(passwordKey, wrappedPrivateKeyBase64, p);
        (imported.Ok? ==> r.Ok? && privateKey == Some(imported.value))
        && (imported.Err? ==> r == Err(imported.error) && privateKey == old(privateKey))
    {
      var wrapped := Base64ToWrapped(wrappedPrivateKeyBase64);
      if wrapped.Err? {
        return Err(wrapped.error);
      }
      var key := p.unwrapKey(wrapped.value.wrappedKey, passwordKey, wrapped.value.iv);
      if key.None? {
        return Err(CryptoError(UnwrapFailed));
      }
      privateKey := key;
      return Ok(());
    }

    /** `saveToLocalStorage`: INCOMPLETE unless both keys are held; then
        both are exported (a failed export is EXPORT_FAILED and stores
        nothing) and written as one JSON object. */
    method SaveToLocalStorage(storage: LocalStorage, p: Primitives, json: JsonCodec)
      returns (r: Result<(), Exception>)
      modifies storage
      ensures !IsComplete() ==> r == Err(ContextError(Incomplete)) && storage.items == old(storage.items)
      ensures IsComplete() ==>
        var s := p.exportAesKey(secretKey.value);
        var k := p.exportRsaKey(privateKey.value);
        (s.Some? && k.Some? ==>
          r.Ok? && storage.items == old(storage.items)[LocalStorageKey := json.stringify(s.value, k.value)])
        && (s.None? || k.None? ==> r == Err(CryptoError(ExportFailed)) && storage.items == old(storage.items))
    {
      if secretKey.None? || privateKey.None? {
        return Err(ContextError(Incomplete));
      }
      var exportedSecret := p.exportAesKey(secretKey.value);
      var exportedPrivate := p.exportRsaKey(privateKey.value);
      if exportedSecret.None? || exportedPrivate.None? {
        return Err(CryptoError(ExportFailed));
      }
      storage.SetItem(LocalStorageKey, json.stringify(exportedSecret.value, exportedPrivate.value));
      return Ok(());
    }

    /** `loadFromLocalStorage` as written: the two imports are handed to
        `Promise.all` as functions that are never called, so a load that
        passes every check succeeds without installing either key. */
    method LoadFromLocalStorageAsWritten(storage: LocalStorage, json: JsonCodec)
      returns (r: Result<(), Exception>)
      ensures secretKey == old(secretKey) && privateKey == old(privateKey)
      ensures IsComplete() ==> r.Ok?
      ensures !IsComplete() ==>
        var data := storage.GetItem(LocalStorageKey);
        (!Truthy(data) ==> r == Err(ContextError(NotFound)))
        && (Truthy(data) && json.parse(data.value).None? ==> r == Err(OtherError))
        && (Truthy(data) && json.parse(data.value).Some? ==>
              var stored := json.parse(data.value).value;
              (!Truthy(stored.secretKey) || !Truthy(stored.privateKey) ==> r == Err(ContextError(Incomplete)))
              && (Truthy(stored.secretKey) && Truthy(stored.privateKey) ==> r.Ok?))
      ensures r.Ok? && !old(IsComplete()) ==> !IsComplete()
    {
      if secretKey.Some? && privateKey.Some? {
        return Ok(());
      }
      var data := storage.GetItem(LocalStorageKey);
      if !Truthy(data) {
        return Err(ContextError(NotFound));
      }
      var stored := json.parse(data.value);
      if stored.None? {
        return Err(OtherError);
      }
      if !Truthy(stored.value.secretKey) || !Truthy(stored.value.privateKey) {
        return Err(ContextError(Incomplete));
      }
      // the array holds two uninvoked async functions: nothing runs
      return Ok(());
    }

    /** `loadFromLocalStorage` with the two imports invoked: each key is
        installed when its import succeeds, and a failed import is
        IMPORT_FAILED. The same checks come first. A successful load leaves
        the context complete. */
    method LoadFromLocalStorage(storage: LocalStorage, p: Primitives, json: JsonCodec)
      returns (r: Result<(), Exception>)
      modifies this
      ensures old(IsComplete()) ==> r.Ok? && secretKey == old(secretKey) && privateKey == old(privateKey)
      ensures !old(IsComplete()) ==>
        var data := storage.GetItem(LocalStorageKey);
        (!Truthy(data) ==> r == Err(ContextError(NotFound)))
        && (Truthy(data) && json.parse(data.value).None? ==> r == Err(OtherError))
        && (Truthy(data) && json.parse(data.value).Some? ==>
              var stored := json.parse(data.value).value;
              (!Truthy(stored.secretKey) || !Truthy(stored.privateKey) ==> r == Err(ContextError(Incomplete)))
              && (Truthy(stored.secretKey) && Truthy(stored.privateKey) ==>
                    var s := p.importAesKey(stored.secretKey.value);
                    var k := p.importRsaKey(stored.privateKey.value);
                    secretKey == (if s.Some? then s else old(secretKey))
                    && privateKey == (if k.Some? then k else old(privateKey))
                    && r == (if s.Some? && k.Some? then Ok(()) else Err(CryptoError(ImportFailed)))))
      ensures r.Ok? ==> IsComplete()
    {
      if secretKey.Some? && privateKey.Some? {
        return Ok(());
      }
      var data := storage.GetItem(LocalStorageKey);
      if !Truthy(data) {
        return Err(ContextError(NotFound));
      }
      var stored := json.parse(data.value);
      if stored.None? {
        return Err(OtherError);
      }
      if !Truthy(stored.value.secretKey) || !Truthy(stored.value.privateKey) {
        return Err(ContextError(Incomplete));
      }
      var importedSecret := p.importAesKey(stored.value.secretKey.value);
      var importedPrivate := p.importRsaKey(stored.value.privateKey.value);
      if importedSecret.Some? {
        secretKey := importedSecret;
      }
      if importedPrivate.Some? {
        privateKey := importedPrivate;
      }
      if importedSecret.None? || importedPrivate.None? {
        return Err(CryptoError(ImportFailed));
      }
      return Ok(());
    }

    /** `clear`: both slots emptied and the stored entry removed. */
    method Clear(storage: LocalStorage)
      modifies this, storage
      ensures secretKey == None && privateKey == None && !IsComplete()
      ensures storage.items == old(storage.items) - {LocalStorageKey}
    {
      secretKey := None;
      privateKey := None;
      storage.RemoveItem(LocalStorageKey);
    }

    /** `createSecretKey`: OVERWRITE, with nothing changed, when a secret key
        is held; otherwise the key SRP derived from the secret is installed
        and `verifier.salt` returned. */
    method CreateSecretKey(getVerifier: Result<Verifier, Exception>) returns (r: Result<string, Exception>)
      modifies this
      ensures privateKey == old(privateKey)
      ensures old(secretKey).Some? ==> r == Err(ContextError(Overwrite)) && secretKey == old(secretKey)
      ensures old(secretKey).None? && getVerifier.Err? ==> r == Err(getVerifier.error) && secretKey == None
      ensures old(secretKey).None? && getVerifier.Ok? ==>
        r == Ok(EncodedVerifier(getVerifier.value)) && secretKey == Some(getVerifier.value.key)
    {
      if secretKey.Some? {
        return Err(ContextError(Overwrite));
      }
      if getVerifier.Err? {
        return Err(getVerifier.error);
      }
      var v := getVerifier.value;
      secretKey := Some(v.key);
      return Ok(v.verifier + "." + v.salt);
    }

    /** `createUserKeys`: MISSING_SECRET_KEY is checked before OVERWRITE.
        The new private key is installed before the two wraps, so a failed
        wrap leaves it in place. The private key is wrapped under the
        password key and the public key under the secret key, each with its
        own IV, and both are emitted as `iv.wrapped` tokens. */
    method CreateUserKeys(getVerifier: Result<Verifier, Exception>, keyPair: KeyPair,
                          ivPrivateKey: seq<byte>, ivPublicKey: seq<byte>, p: Primitives)
      returns (r: Result<UserKeys, Exception>)
      modifies this
      ensures secretKey == old(secretKey)
      ensures old(secretKey).None? ==> r == Err(ContextError(MissingSecretKey)) && privateKey == old(privateKey)
      ensures old(secretKey).Some? && old(privateKey).Some? ==>
        r == Err(ContextError(Overwrite)) && privateKey == old(privateKey)
      ensures old(secretKey).Some? && old(privateKey).None? && getVerifier.Err? ==>
        r == Err(getVerifier.error) && privateKey == None
      ensures old(secretKey).Some? && old(privateKey).None? && getVerifier.Ok? ==>
        privateKey == Some(keyPair.privateKey)
        && r == WrappedUserKeys(secretKey.value, getVerifier.value, keyPair, ivPrivateKey, ivPublicKey, p)
    {
      if secretKey.None? {
        return Err(ContextError(MissingSecretKey));
      }
      if privateKey.Some? {
        return Err(ContextError(Overwrite));
      }
      if getVerifier.Err? {
        return Err(getVerifier.error);
      }
      var v := getVerifier.value;
      privateKey := Some(keyPair.privateKey);
      var wrappedPrivate := p.wrapKey(keyPair.privateKey, v.key, ivPrivateKey);
      if wrappedPrivate.None? {
        return Err(CryptoError(WrapFailed));
      }
      var wrappedPublic := p.wrapKey(keyPair.publicKey, secretKey.value, ivPublicKey);
      if wrappedPublic.None? {
        return Err(CryptoError(WrapFailed));
      }
      return Ok(UserKeys(v.verifier + "." + v.salt,
                         WrappedToBase64(wrappedPublic.value, ivPublicKey),
                         WrappedToBase64(wrappedPrivate.value, ivPrivateKey)));
    }
  }

  /** Saving a complete context and loading into an empty one restores both
      keys, when exports import back and JSON reads back what it wrote. */
  method SaveThenLoad(ctx: CryptoContext, storage: LocalStorage, p: Primitives, json: JsonCodec)
    returns (restored: CryptoContext)
    requires ctx.IsComplete()
    requires p.exportAesKey(ctx.secretKey.value).Some? && p.exportRsaKey(ctx.privateKey.value).Some?
    requires ExportImportInverse(p) && JsonRoundTrip(json)
    modifies storage
    ensures restored.secretKey == ctx.secretKey && restored.privateKey == ctx.privateKey
  {
    var s := p.exportAesKey(ctx.secretKey.value).value;
    var k := p.exportRsaKey(ctx.privateKey.value).value;
    var saved := ctx.SaveToLocalStorage(storage, p, json);
    assert storage.GetItem(LocalStorageKey) == Some(json.stringify(s, k));
    assert json.parse(json.stringify(s, k)) == Some(StoredKeys(Some(s), Some(k)));
    assert p.importAesKey(s) == ctx.secretKey && p.importRsaKey(k) == ctx.privateKey;
    restored := new CryptoContext();
    var loaded := restored.LoadFromLocalStorage(storage, p, json);
  }
}
