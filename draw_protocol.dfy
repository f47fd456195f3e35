/** The draw end to end, across server and SDK: the server shuffles the
    members and pairs IDs with keys by position (server/services/group_service.go),
    the administrator's SDK rotates the public keys (api-sdk/lib/index.ts),
    the server encrypts ID i to rotated key i, and each member reads the
    one result their private key opens. The public-key encryption is taken
    as ideal: a ciphertext opens under exactly the key it was made for. */
module DrawProtocol {
  import opened Wrappers
  import opened ServerGroups
  import opened Strings
  import DrawRotation
  import SdkApi
  import SdkAuthContext
  import ServerMiddleware
  import opened SdkStorage

  /** Every public key parses as an RSA-OAEP-256 key, encryption to it
      never fails, and member k (holder of the private half of `pub[k]`)
      opens a ciphertext made for `pub[j]` exactly when j == k, finding the
      plaintext. */
  ghost predicate IdealEncryption(pub: seq<string>, parseKey: string -> Option<Jwk>,
                                  jweEncrypt: (string, Jwk) -> Option<string>, decrypt: (nat, string) -> Option<string>)
  {
    (forall j :: 0 <= j < |pub| ==>
       parseKey(pub[j]).Some? && parseKey(pub[j]).value.keyType == KeyTypeRsa
       && parseKey(pub[j]).value.algorithm == Some(AlgorithmRsaOaep256))
    && (forall m, j :: 0 <= j < |pub| ==> jweEncrypt(m, parseKey(pub[j]).value).Some?)
    && (forall m, j, k :: 0 <= j < |pub| && 0 <= k < |pub| ==>
          decrypt(k, jweEncrypt(m, parseKey(pub[j]).value).value) == if j == k then Some(m) else None)
  }

  /** The position whose ID member k draws: the one whose rotated key is
      `pub[k]`. */
  function Drawn(k: nat, s: nat, n: nat): nat
    requires k < n && s <= n
  {
    (k + n - s) % n
  }

  /** Position `Drawn(k, s, n)` receives key k, and no other position
      does; for 1 <= s <= N-1 it is not k itself. */
  lemma DrawnReceivesKey(k: nat, s: nat, n: nat)
    requires k < n && s <= n
    ensures Drawn(k, s, n) < n && DrawRotation.Source(Drawn(k, s, n), s, n) == k
    ensures forall i :: 0 <= i < n && i != Drawn(k, s, n) ==> DrawRotation.Source(i, s, n) != k
    ensures 1 <= s <= n - 1 ==> Drawn(k, s, n) != k
  {
    var d := Drawn(k, s, n);
    if k < s {
      DrawRotation.ModUnique(k + n - s, n, 0, k + n - s);
      DrawRotation.ModUnique(d + s, n, 1, k);
    } else {
      DrawRotation.ModUnique(k + n - s, n, 1, k - s);
      DrawRotation.ModUnique(d + s, n, 0, k);
    }
    forall i | 0 <= i < n && i != d
      ensures DrawRotation.Source(i, s, n) != k
    {
      if i + s < n {
        DrawRotation.ModUnique(i + s, n, 0, i + s);
      } else {
        DrawRotation.ModUnique(i + s, n, 1, i + s - n);
      }
    }
    if 1 <= s <= n - 1 {
      DrawRotation.NoFixedPoint(d, s, n);
    }
  }

  /** The first truthy decryption is at `t` when every earlier one is
      falsy. */
  lemma {:induction false} FirstDecryptedAt(results: seq<string>, decryptResult: string -> Option<string>, t: nat)
    requires t < |results|
    requires forall i :: 0 <= i < t ==> !Truthy(decryptResult(results[i]))
    requires Truthy(decryptResult(results[t]))
    ensures SdkApi.FirstDecrypted(results, decryptResult) == decryptResult(results[t])
  {
    if t > 0 {
      assert forall i :: 0 <= i < t - 1 ==> results[1..][i] == results[i + 1];
      FirstDecryptedAt(results[1..], decryptResult, t - 1);
    }
  }

  /** With every key valid, encrypting every ID succeeds. */
  lemma AllEntriesEncrypt(ids: seq<string>, keys: seq<string>,
                          parseKey: string -> Option<Jwk>, jweEncrypt: (string, Jwk) -> Option<string>)
    requires |ids| == |keys|
    requires forall i :: 0 <= i < |ids| ==> EncryptEntry(ids[i], keys[i], parseKey, jweEncrypt).Ok?
    ensures EncryptAll(ids, keys, parseKey, jweEncrypt).Ok?
  {
    if EncryptAll(ids, keys, parseKey, jweEncrypt).Err? {
      EncryptAllFirstFailure(ids, keys, parseKey, jweEncrypt);
    }
  }

  /** The draw's promise: when the administrator sends a shifted draw of
      the N >= 2 public keys (as `SdkApi.SuperSantaApi.Draw` guarantees)
      and the IDs are non-empty, `finishDraw` succeeds, and member k's
      `parseResult` finds exactly the ID at `Drawn(k, s, n)` — never their
      own position, so with distinct IDs never their own ID. */
  lemma {:induction false} EveryoneDrawsAnother(ids: seq<string>, pub: seq<string>, sent: seq<string>, random: real,
                                                parseKey: string -> Option<Jwk>, jweEncrypt: (string, Jwk) -> Option<string>,
                                                decrypt: (nat, string) -> Option<string>, k: nat)
    requires 0.0 <= random < 1.0
    requires |ids| == |pub| >= 2 && k < |ids|
    requires forall i :: 0 <= i < |ids| ==> ids[i] != ""
    requires SdkApi.ShiftedDraw(pub, sent, random)
    requires IdealEncryption(pub, parseKey, jweEncrypt, decrypt)
    ensures EncryptAll(ids, sent, parseKey, jweEncrypt).Ok?
    ensures var n := |ids|;
      var s := DrawRotation.ShiftAmount(random, n);
      1 <= s <= n - 1 && Drawn(k, s, n) != k
      && SdkApi.FirstDecrypted(EncryptAll(ids, sent, parseKey, jweEncrypt).value, c => decrypt(k, c))
         == Some(ids[Drawn(k, s, n)])
  {
    var n := |ids|;
    var s := DrawRotation.ShiftAmount(random, n);
    assert 1 <= s <= n - 1;
    forall i | 0 <= i < n
      ensures EncryptEntry(ids[i], sent[i], parseKey, jweEncrypt) == Ok(jweEncrypt(ids[i], parseKey(pub[(i + s) % n]).value).value)
    {
      assert sent[i] == pub[(i + s) % n];
    }
    AllEntriesEncrypt(ids, sent, parseKey, jweEncrypt);
    var results := EncryptAll(ids, sent, parseKey, jweEncrypt).value;
    EncryptAllPositional(ids, sent, parseKey, jweEncrypt);
    DrawnReceivesKey(k, s, n);
    var d := Drawn(k, s, n);
    var open := (c: string) => decrypt(k, c);
    forall i | 0 <= i < n
      ensures open(results[i]) == if i == d then Some(ids[i]) else None
    {
      assert results[i] == jweEncrypt(ids[i], parseKey(pub[DrawRotation.Source(i, s, n)]).value).value;
    }
    FirstDecryptedAt(results, open, d);
  }

  /** With distinct IDs the drawn ID is another member's. */
  lemma NobodyDrawsThemselves(ids: seq<string>, k: nat, s: nat)
    requires k < |ids| && 1 <= s <= |ids| - 1
    requires forall a, b :: 0 <= a < b < |ids| ==> ids[a] != ids[b]
    ensures ids[Drawn(k, s, |ids|)] != ids[k]
  {
    DrawnReceivesKey(k, s, |ids|);
  }

  /** Distinct entries stay distinct under one swap. */
  lemma SwapDistinct<T>(s: seq<T>, i: nat, j: nat)
    requires i < |s| && j < |s|
    requires forall a, b :: 0 <= a < b < |s| ==> s[a] != s[b]
    ensures var t := Swap(s, i, j); forall a, b :: 0 <= a < b < |t| ==> t[a] != t[b]
  {
    var t := Swap(s, i, j);
    // position p of t holds s[Perm(p)] for the transposition of i and j
    forall a, b | 0 <= a < b < |t|
      ensures t[a] != t[b]
    {
      var pa := if a == i then j else if a == j then i else a;
      var pb := if b == i then j else if b == j then i else b;
      assert t[a] == s[pa] && t[b] == s[pb];
      assert pa != pb;
      if pa > pb {
        assert s[pb] != s[pa];
      }
    }
  }

  /** The shuffle keeps distinct entries distinct. */
  lemma {:induction false} ShuffleDistinct<T>(s: seq<T>, rand: nat -> Option<seq<byte>>, i: nat)
    requires i < |s| && EightBytes(rand)
    requires forall a, b :: 0 <= a < b < |s| ==> s[a] != s[b]
    requires Shuffle(s, rand, i).Some?
    ensures var t := Shuffle(s, rand, i).value; forall a, b :: 0 <= a < b < |t| ==> t[a] != t[b]
    decreases i
  {
    if i > 0 {
      var j := LittleEndian(rand(i).value) % (i + 1);
      SwapDistinct(s, i, j);
      ShuffleDistinct(Swap(s, i, j), rand, i - 1);
    }
  }

  /** Shuffling the members and then taking their IDs is shuffling the
      IDs. */
  lemma {:induction false} ShuffleIds(users: seq<User>, rand: nat -> Option<seq<byte>>, i: nat)
    requires i < |users| && EightBytes(rand)
    requires Shuffle(users, rand, i).Some?
    ensures Shuffle(Ids(users), rand, i).Some?
    ensures Ids(Shuffle(users, rand, i).value) == Shuffle(Ids(users), rand, i).value
    decreases i
  {
    if i > 0 {
      var j := LittleEndian(rand(i).value) % (i + 1);
      assert Ids(Swap(users, i, j)) == Swap(Ids(users), i, j);
      ShuffleIds(Swap(users, i, j), rand, i - 1);
    }
  }

  /** The draw session's IDs are the members' IDs in shuffled order; when
      the members' IDs are distinct, so are the session's. */
  lemma ShuffledIdsDistinct(users: seq<User>, rand: nat -> Option<seq<byte>>)
    requires |users| > 0 && EightBytes(rand)
    requires forall a, b :: 0 <= a < b < |users| ==> users[a].id != users[b].id
    requires Shuffle(users, rand, |users| - 1).Some?
    ensures var ids := Ids(Shuffle(users, rand, |users| - 1).value);
      multiset(ids) == multiset(Ids(users)) && forall a, b :: 0 <= a < b < |ids| ==> ids[a] != ids[b]
  {
    var n := |users| - 1;
    ShuffleIds(users, rand, n);
    ShuffleDistinct(Ids(users), rand, n);
    ShufflePermutation(Ids(users), rand, n);
  }

  /** The header the SDK builds from its auth token passes the server's
      bearer check with that same token, and no header at all is sent
      without a token. */
  lemma AuthHeaderAccepted(ctx: SdkAuthContext.AuthContext)
    ensures Truthy(ctx.authToken) ==>
      ServerMiddleware.BearerToken(ctx.GetAuthHeader()) == Ok(ctx.authToken.value)
    ensures !Truthy(ctx.authToken) ==>
      ServerMiddleware.BearerToken(ctx.GetAuthHeader()) == Err(ServerMiddleware.MissingHeader)
  {
    if Truthy(ctx.authToken) {
      ServerMiddleware.BearerRoundTrip(ctx.authToken.value);
    }
  }
}
