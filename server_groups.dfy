/** The draw on the server (server/services/group_service.go): the group
    store, the in-place Fisher-Yates shuffle of the members, the draw
    session that remembers the shuffled order, and the positional pairing
    of that order with the rotated keys the administrator sends back. */
module ServerGroups {
  import opened Wrappers
  import opened Strings

  datatype User = User(id: string, email: string, isAdmin: bool, publicKeySecret: string)

  /** `results` is `None` for a nil `Results` slice. */
  datatype Group = Group(id: string, secretVerifier: string, users: seq<User>, results: Option<seq<string>>)

  /** The member IDs in the shuffled order of the draw. */
  datatype DrawSession = DrawSession(userIDs: seq<string>)

  datatype GroupError =
    | GroupNotFound
    | NotEnoughUsers
    | RandomFailure        // `crypto/rand` failed
    | DrawSessionNotFound
    | InvalidPublicKey
    | EncryptFailure
    | VerifierNotValid
    | StoreFailure         // the database refused the insert or update

  /** A parsed JSON Web Key: its `kty`, its optional `alg`, and the key
      material, which the model does not look into. */
  datatype Jwk = Jwk(keyType: string, algorithm: Option<string>, material: nat)

  const KeyTypeRsa: string := "RSA"
  const AlgorithmRsaOaep256: string := "RSA-OAEP-256"

  // ---------------------------------------------------------- randomness

  function Pow256(k: nat): nat
  {
    if k == 0 then 1 else 256 * Pow256(k - 1)
  }

  /** The unsigned integer whose little-endian bytes are `b`. */
  function LittleEndian(b: seq<byte>): nat
  {
    if |b| == 0 then 0 else LittleEndian(b[..|b| - 1]) + b[|b| - 1] * Pow256(|b| - 1)
  }

  lemma {:induction false} LittleEndianBound(b: seq<byte>)
    ensures LittleEndian(b) < Pow256(|b|)
  {
    if |b| > 0 {
      var k := |b| - 1;
      LittleEndianBound(b[..k]);
      ByteTimesPower(b[k], Pow256(k));
    }
  }

  lemma ByteTimesPower(x: byte, p: nat)
    ensures x * p <= 255 * p
  {
  }

  /** The conversion loop of `InitDraw`: byte k lands in bits 8k..8k+7. The
      bytes occupy disjoint bits, so the `|=` is an addition. */
  method ReadUint64(randomBytes: seq<byte>) returns (randomInt: nat)
    requires |randomBytes| == 8
    ensures randomInt == LittleEndian(randomBytes)
    ensures randomInt < 0x1_0000_0000_0000_0000
  {
    randomInt := 0;
    var shift: nat := 1;
    for k := 0 to 8
      invariant randomInt == LittleEndian(randomBytes[..k])
      invariant shift == Pow256(k)
    {
      randomInt := randomInt + randomBytes[k] * shift;
      shift := shift * 256;
      assert randomBytes[..k + 1][..k] == randomBytes[..k];
    }
    assert randomBytes[..8] == randomBytes;
    LittleEndianBound(randomBytes);
  }

  /** What `crypto/rand` yields at step i of the shuffle: eight bytes, or
      `None` when it fails. */
  ghost predicate EightBytes(rand: nat -> Option<seq<byte>>)
  {
    forall i :: rand(i).Some? ==> |rand(i).value| == 8
  }

  // ------------------------------------------------------------ shuffle

  function Swap<T>(s: seq<T>, i: nat, j: nat): (r: seq<T>)
    requires i < |s| && j < |s|
    ensures |r| == |s|
  {
    s[i := s[j]][j := s[i]]
  }

  /** Steps i, i-1, ..., 1 of the shuffle on `s`: step i swaps position i
      with `j = x mod (i+1)`, x the step's random number. `None` when the
      random source fails. */
  function Shuffle<T>(s: seq<T>, rand: nat -> Option<seq<byte>>, i: nat): (r: Option<seq<T>>)
    requires i < |s| && EightBytes(rand)
    ensures r.Some? ==> |r.value| == |s|
    decreases i
  {
    if i == 0 then Some(s)
    else
      match rand(i)
      case None => None
      case Some(b) => Shuffle(Swap(s, i, LittleEndian(b) % (i + 1)), rand, i - 1)
  }

  /** Every step swaps position i with one in [0, i]. */
  lemma SwapIndexInRange(x: nat, i: nat)
    ensures 0 <= x % (i + 1) <= i
  {
  }

  /** The shuffle is a permutation. */
  lemma {:induction false} ShufflePermutation<T>(s: seq<T>, rand: nat -> Option<seq<byte>>, i: nat)
    requires i < |s| && EightBytes(rand)
    requires Shuffle(s, rand, i).Some?
    ensures multiset(Shuffle(s, rand, i).value) == multiset(s)
    decreases i
  {
    if i > 0 {
      var j := LittleEndian(rand(i).value) % (i + 1);
      ShufflePermutation(Swap(s, i, j), rand, i - 1);
      SwapPermutation(s, i, j);
    }
  }

  lemma SwapPermutation<T>(s: seq<T>, i: nat, j: nat)
    requires i < |s| && j < |s|
    ensures multiset(Swap(s, i, j)) == multiset(s)
  {
    if i != j {
      var t := s[i := s[j]];
      UpdateMultiset(s, i, s[j]);
      UpdateMultiset(t, j, s[i]);
      assert t[j] == s[j];
      MultisetCancel(multiset(s), s[i], s[j]);
    }
  }

  lemma UpdateMultiset<T>(s: seq<T>, k: nat, v: T)
    requires k < |s|
    ensures multiset(s[k := v]) == multiset(s) - multiset{s[k]} + multiset{v}
  {
  }

  lemma MultisetCancel<T>(m: multiset<T>, a: T, b: T)
    requires a in m
    ensures m - multiset{a} + multiset{b} - multiset{b} + multiset{a} == m
  {
  }

  /** The shuffle moves whole elements: shuffling and then projecting a
      field is projecting and then shuffling. */
  lemma {:induction false} ShuffleMap<T, U>(s: seq<T>, f: T -> U, rand: nat -> Option<seq<byte>>, i: nat)
    requires i < |s| && EightBytes(rand)
    ensures var fs := seq(|s|, k requires 0 <= k < |s| => f(s[k]));
      Shuffle(fs, rand, i).Some? == Shuffle(s, rand, i).Some? &&
      (Shuffle(s, rand, i).Some? ==>
        Shuffle(fs, rand, i).value == seq(|s|, k requires 0 <= k < |s| => f(Shuffle(s, rand, i).value[k])))
    decreases i
  {
    var fs := seq(|s|, k requires 0 <= k < |s| => f(s[k]));
    if i > 0 && rand(i).Some? {
      var j := LittleEndian(rand(i).value) % (i + 1);
      var t := Swap(s, i, j);
      ShuffleMap(t, f, rand, i - 1);
      assert Swap(fs, i, j) == seq(|t|, k requires 0 <= k < |t| => f(t[k]));
    }
  }

  /** The IDs of a list of users. */
  function Ids(users: seq<User>): (ids: seq<string>)
    ensures |ids| == |users| && forall k :: 0 <= k < |users| ==> ids[k] == users[k].id
  {
    seq(|users|, k requires 0 <= k < |users| => users[k].id)
  }

  /** The wrapped public keys of a list of users. */
  function PublicKeySecrets(users: seq<User>): (keys: seq<string>)
    ensures |keys| == |users| && forall k :: 0 <= k < |users| ==> keys[k] == users[k].publicKeySecret
  {
    seq(|users|, k requires 0 <= k < |users| => users[k].publicKeySecret)
  }

  // ------------------------------------------------------------ results

  /** One entry of the results: the key at the same position must parse as
      an RSA key for RSA-OAEP-256, and the ID is encrypted to it. */
  function EncryptEntry(userID: string, publicKey: string,
                        parseKey: string -> Option<Jwk>, jweEncrypt: (string, Jwk) -> Option<string>)
    : (r: Result<string, GroupError>)
    ensures r.Ok? <==> parseKey(publicKey).Some? && parseKey(publicKey).value.keyType == KeyTypeRsa
                        && parseKey(publicKey).value.algorithm == Some(AlgorithmRsaOaep256)
                        && jweEncrypt(userID, parseKey(publicKey).value).Some?
    ensures r.Ok? ==> Some(r.value) == jweEncrypt(userID, parseKey(publicKey).value)
    ensures r.Err? ==> r.error == InvalidPublicKey || r.error == EncryptFailure
  {
    match parseKey(publicKey)
    case None => Err(InvalidPublicKey)
    case Some(pubKey) =>
      if pubKey.keyType != KeyTypeRsa then Err(InvalidPublicKey)
      else if pubKey.algorithm != Some(AlgorithmRsaOaep256) then Err(InvalidPublicKey)
      else
        match jweEncrypt(userID, pubKey)
        case None => Err(EncryptFailure)
        case Some(encrypted) => Ok(encrypted)
  }

  /** The loop of `FinishDraw` on its first |ids| positions: the entries in
      order, or the error of the first position that fails. */
  function EncryptAll(ids: seq<string>, keys: seq<string>,
                      parseKey: string -> Option<Jwk>, jweEncrypt: (string, Jwk) -> Option<string>)
    : (r: Result<seq<string>, GroupError>)
    requires |ids| == |keys|
    ensures r.Ok? ==> |r.value| == |ids|
  {
    if |ids| == 0 then Ok([])
    else
      var n := |ids| - 1;
      match EncryptAll(ids[..n], keys[..n], parseKey, jweEncrypt)
      case Err(e) => Err(e)
      case Ok(prefix) =>
        match EncryptEntry(ids[n], keys[n], parseKey, jweEncrypt)
        case Err(e) => Err(e)
        case Ok(encrypted) => Ok(prefix + [encrypted])
  }

  /** On success entry i encrypts ID i to key i: the pairing is positional. */
  lemma {:induction false} EncryptAllPositional(ids: seq<string>, keys: seq<string>,
                                                parseKey: string -> Option<Jwk>, jweEncrypt: (string, Jwk) -> Option<string>)
    requires |ids| == |keys|
    requires EncryptAll(ids, keys, parseKey, jweEncrypt).Ok?
    ensures var results := EncryptAll(ids, keys, parseKey, jweEncrypt).value;
      forall i :: 0 <= i < |ids| ==> EncryptEntry(ids[i], keys[i], parseKey, jweEncrypt) == Ok(results[i])
  {
    if |ids| > 0 {
      var n := |ids| - 1;
      EncryptAllPositional(ids[..n], keys[..n], parseKey, jweEncrypt);
    }
  }

  /** A failure is the error of the first position whose key or
      encryption fails. */
  lemma {:induction false} EncryptAllFirstFailure(ids: seq<string>, keys: seq<string>,
                                                  parseKey: string -> Option<Jwk>, jweEncrypt: (string, Jwk) -> Option<string>)
    requires |ids| == |keys|
    requires EncryptAll(ids, keys, parseKey, jweEncrypt).Err?
    ensures exists i :: (0 <= i < |ids|
      && EncryptEntry(ids[i], keys[i], parseKey, jweEncrypt) == Err(EncryptAll(ids, keys, parseKey, jweEncrypt).error)
      && forall k :: 0 <= k < i ==> EncryptEntry(ids[k], keys[k], parseKey, jweEncrypt).Ok?)
  {
    var n := |ids| - 1;
    var front := EncryptAll(ids[..n], keys[..n], parseKey, jweEncrypt);
    if front.Err? {
      EncryptAllFirstFailure(ids[..n], keys[..n], parseKey, jweEncrypt);
      var i :| 0 <= i < n
        && EncryptEntry(ids[..n][i], keys[..n][i], parseKey, jweEncrypt) == Err(front.error)
        && forall k :: 0 <= k < i ==> EncryptEntry(ids[..n][k], keys[..n][k], parseKey, jweEncrypt).Ok?;
      assert forall k :: 0 <= k < i ==> ids[..n][k] == ids[k] && keys[..n][k] == keys[k];
      assert ids[..n][i] == ids[i] && keys[..n][i] == keys[i];
    } else {
      EncryptAllPositional(ids[..n], keys[..n], parseKey, jweEncrypt);
      assert forall k :: 0 <= k < n ==> ids[..n][k] == ids[k] && keys[..n][k] == keys[k];
    }
  }

  // ------------------------------------------------------------ service

  /** The group service: the group store and the in-memory draw sessions,
      keyed by group ID. */
  class GroupService {
    var groups: map<string, Group>
    var drawSessions: map<string, DrawSession>

    constructor(groups: map<string, Group>)
      ensures this.groups == groups && drawSessions == map[]
    {
      this.groups := groups;
      drawSessions := map[];
    }

    /** `CreateGroup`: the admin becomes the only member, marked admin; the
        verifier token must have two "."-separated parts. The store's
        `BeforeCreate` hook gives the group a new UUID (`newID`) in place
        of whatever ID the caller set; `inserted` is whether the database
        accepted the row, and an ID already taken is refused as a duplicate
        primary key, so no existing group is ever replaced. */
    method CreateGroup(group: Group, admin: User, newID: string, inserted: bool) returns (r: Result<Group, GroupError>)
      modifies this
      ensures drawSessions == old(drawSessions)
      ensures forall id :: id in old(groups) ==> id in groups && groups[id] == old(groups)[id]
      ensures |Split(group.secretVerifier, '.')| != 2 ==> r == Err(VerifierNotValid) && groups == old(groups)
      ensures |Split(group.secretVerifier, '.')| == 2 && (!inserted || newID in old(groups)) ==>
        r == Err(StoreFailure) && groups == old(groups)
      ensures |Split(group.secretVerifier, '.')| == 2 && inserted && newID !in old(groups) ==>
        r == Ok(group.(id := newID, users := [admin.(isAdmin := true)]))
        && groups == old(groups)[newID := r.value]
    {
      var created := group.(users := [admin]);
      created := created.(users := [created.users[0].(isAdmin := true)]);
      var parts := Split(created.secretVerifier, '.');
      if |parts| != 2 {
        return Err(VerifierNotValid);
      }
      created := created.(id := newID);
      if !inserted || newID in groups {
        return Err(StoreFailure);
      }
      groups := groups[newID := created];
      return Ok(created);
    }

    /** `InitDraw`: at least three members, shuffled in place with
        Fisher-Yates; the shuffled IDs are kept as the group's draw
        session (replacing any earlier one) and the shuffled wrapped keys
        are returned, position for position. */
    method InitDraw(groupID: string, rand: nat -> Option<seq<byte>>) returns (r: Result<seq<string>, GroupError>)
      requires EightBytes(rand)
      modifies this
      ensures groups == old(groups)
      ensures groupID !in groups ==> r == Err(GroupNotFound) && drawSessions == old(drawSessions)
      ensures groupID in groups && |groups[groupID].users| < 3 ==>
        r == Err(NotEnoughUsers) && drawSessions == old(drawSessions)
      ensures groupID in groups && |groups[groupID].users| >= 3 ==>
        var users := groups[groupID].users;
        var shuffled := Shuffle(users, rand, |users| - 1);
        (shuffled.None? ==> r == Err(RandomFailure) && drawSessions == old(drawSessions)) &&
        (shuffled.Some? ==>
          r == Ok(PublicKeySecrets(shuffled.value))
          && drawSessions == old(drawSessions)[groupID := DrawSession(Ids(shuffled.value))])
    {
      if groupID !in groups {
        return Err(GroupNotFound);
      }
      var group := groups[groupID];
      var n := |group.users|;
      if n < 3 {
        return Err(NotEnoughUsers);
      }
      var users := new User[n](k requires 0 <= k < n => group.users[k]);
      assert users[..] == group.users;
      var shuffledOk := ShuffleInPlace(users, rand);
      if !shuffledOk {
        return Err(RandomFailure);
      }
      var shuffled := users[..];
      var userIDs := CollectIds(shuffled);
      drawSessions := drawSessions[groupID := DrawSession(userIDs)];
      var publicKeySecrets := CollectPublicKeySecrets(shuffled);
      return Ok(publicKeySecrets);
    }

    /** `FinishDraw`: the group must exist and have a draw session; from
        then on the session is consumed whatever happens. The keys must be
        as many as the stored IDs, and entry i of the results encrypts
        stored ID i to key i. Results are stored only when every entry
        succeeded, and the call succeeds only when the database accepted
        the update (`updated`). */
    method FinishDraw(groupID: string, publicKeys: seq<string>,
                      parseKey: string -> Option<Jwk>, jweEncrypt: (string, Jwk) -> Option<string>,
                      updated: bool)
      returns (r: Result<seq<string>, GroupError>)
      modifies this
      ensures groupID !in old(groups) ==>
        r == Err(GroupNotFound) && groups == old(groups) && drawSessions == old(drawSessions)
      ensures groupID in old(groups) && groupID !in old(drawSessions) ==>
        r == Err(DrawSessionNotFound) && groups == old(groups) && drawSessions == old(drawSessions)
      ensures groupID in old(groups) && groupID in old(drawSessions) ==>
        drawSessions == old(drawSessions) - {groupID}
      ensures groupID in old(groups) && groupID in old(drawSessions) ==>
        var ids := old(drawSessions)[groupID].userIDs;
        (|publicKeys| != |ids| ==> r == Err(InvalidPublicKey)) &&
        (|publicKeys| == |ids| ==>
           var all := EncryptAll(ids, publicKeys, parseKey, jweEncrypt);
           (all.Err? ==> r == all) && (all.Ok? ==> r == (if updated then all else Err(StoreFailure))))
      ensures r.Err? ==> groups == old(groups)
      ensures r.Ok? ==> groupID in old(groups) && groups == old(groups)[groupID := old(groups)[groupID].(results := Some(r.value))]
    {
      if groupID !in groups {
        return Err(GroupNotFound);
      }
      var group := groups[groupID];
      if groupID !in drawSessions {
        return Err(DrawSessionNotFound);
      }
      var session := drawSessions[groupID];
      // the deferred delete
      drawSessions := drawSessions - {groupID};
      var ids := session.userIDs;
      if |publicKeys| != |ids| {
        return Err(InvalidPublicKey);
      }
      r := EncryptResults(ids, publicKeys, parseKey, jweEncrypt);
      if r.Err? {
        return;
      }
      if !updated {
        return Err(StoreFailure);
      }
      groups := groups[groupID := group.(results := Some(r.value))];
    }
  }

  /** The Fisher-Yates loop of `InitDraw`: for i from N-1 down to 1, eight
      random bytes give x and position i is swapped with x mod (i+1).
      Returns false, with the shuffle cut short, when the random source
      fails. */
  method ShuffleInPlace(users: array<User>, rand: nat -> Option<seq<byte>>) returns (ok: bool)
    requires users.Length > 0 && EightBytes(rand)
    modifies users
    ensures ok <==> Shuffle(old(users[..]), rand, users.Length - 1).Some?
    ensures ok ==> users[..] == Shuffle(old(users[..]), rand, users.Length - 1).value
  {
    var n := users.Length;
    var i := n - 1;
    while i > 0
      invariant 0 <= i < n
      invariant Shuffle(old(users[..]), rand, n - 1) == Shuffle(users[..], rand, i)
    {
      var randomBytes := rand(i);
      if randomBytes.None? {
        assert Shuffle(users[..], rand, i) == None;
        return false;
      }
      var randomInt := ReadUint64(randomBytes.value);
      var j := randomInt % (i + 1);
      ghost var before := users[..];
      users[i], users[j] := users[j], users[i];
      assert users[..] == Swap(before, i, j);
      i := i - 1;
    }
    return true;
  }

  /** `userIDs[i] = user.ID` for each position. */
  method CollectIds(users: seq<User>) returns (userIDs: seq<string>)
    ensures userIDs == Ids(users)
  {
    var ids := new string[|users|];
    for k := 0 to |users|
      invariant forall m :: 0 <= m < k ==> ids[m] == users[m].id
    {
      ids[k] := users[k].id;
    }
    return ids[..];
  }

  /** `publicKeySecrets[i] = user.PublicKeySecret` for each position. */
  method CollectPublicKeySecrets(users: seq<User>) returns (publicKeySecrets: seq<string>)
    ensures publicKeySecrets == PublicKeySecrets(users)
  {
    var keys := new string[|users|];
    for k := 0 to |users|
      invariant forall m :: 0 <= m < k ==> keys[m] == users[m].publicKeySecret
    {
      keys[k] := users[k].publicKeySecret;
    }
    return keys[..];
  }

  /** The loop of `FinishDraw`: fills `results` position by position and
      stops at the first failure. */
  method EncryptResults(ids: seq<string>, publicKeys: seq<string>,
                        parseKey: string -> Option<Jwk>, jweEncrypt: (string, Jwk) -> Option<string>)
    returns (r: Result<seq<string>, GroupError>)
    requires |ids| == |publicKeys|
    ensures r == EncryptAll(ids, publicKeys, parseKey, jweEncrypt)
  {
    var results := new string[|ids|];
    for i := 0 to |ids|
      invariant EncryptAll(ids[..i], publicKeys[..i], parseKey, jweEncrypt) == Ok(results[..i])
    {
      assert ids[..i + 1][..i] == ids[..i] && publicKeys[..i + 1][..i] == publicKeys[..i];
      var entry := EncryptEntry(ids[i], publicKeys[i], parseKey, jweEncrypt);
      if entry.Err? {
        r := Err(entry.error);
        assert EncryptAll(ids[..i + 1], publicKeys[..i + 1], parseKey, jweEncrypt) == r;
        EncryptAllPrefixFails(ids, publicKeys, parseKey, jweEncrypt, i + 1);
        return;
      }
      results[i] := entry.value;
      assert results[..i + 1] == results[..i] + [entry.value];
    }
    assert ids[..|ids|] == ids && publicKeys[..|ids|] == publicKeys;
    assert results[..|ids|] == results[..];
    return Ok(results[..]);
  }

  /** A failure on a prefix is the failure of the whole. */
  lemma {:induction false} EncryptAllPrefixFails(ids: seq<string>, keys: seq<string>,
                                                 parseKey: string -> Option<Jwk>, jweEncrypt: (string, Jwk) -> Option<string>, m: nat)
    requires |ids| == |keys| && m <= |ids|
    requires EncryptAll(ids[..m], keys[..m], parseKey, jweEncrypt).Err?
    ensures EncryptAll(ids, keys, parseKey, jweEncrypt) == EncryptAll(ids[..m], keys[..m], parseKey, jweEncrypt)
    decreases |ids| - m
  {
    if m < |ids| {
      assert ids[..m + 1][..m] == ids[..m] && keys[..m + 1][..m] == keys[..m];
      EncryptAllPrefixFails(ids, keys, parseKey, jweEncrypt, m + 1);
    } else {
      assert ids[..m] == ids && keys[..m] == keys;
    }
  }
}
