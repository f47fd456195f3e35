# Super Santa — a verified model of the anonymous draw and its key handling

Super Santa runs a secret-santa draw in which the server never learns who
gives to whom. The server shuffles the members of a group and hands the
administrator their public keys, which are wrapped under the group secret.
The administrator unwraps the keys, rotates the list by a random shift s in
[1, N-1] and sends it back. The server then encrypts member ID i to rotated
key i. Each member tries every result with their private key: the one
result they can open names the person they give to.

This project models, in Dafny, the parts of the TypeScript SDK and the Go
server that decide who gets what and when:

- **the draw on both sides**:
  - Fisher-Yates shuffle, draw session and positional encryption in the group service;
  - the rotation, error mapping and result parsing in the SDK;
  - the status decisions of the draw and join handlers.
- **client state**:
  - the `CryptoContext` key slots with their guards and persistence;
  - the `AuthContext` token slots with the JWT expiry check;
  - the `localStorage` they share.
- **the server login sessions**: verifier-token parsing, session-ID
  format, single-use sessions and JWT subject checks.
- **the encoders**:
  - hex (Go `encoding/hex` and the SDK's lenient `hexToBuffer`);
  - standard base64 (section 4 of RFC 4648), read by browser `atob` and Go `StdEncoding`;
  - the `iv.wrapped` key token;
  - the client's unpadded base64url (section 5 of RFC 4648);
  - the newline-joined `Results` column;
  - the offline decryption tool's token parser and line counter.

Stateful code is modelled as classes with `modifies` clauses, and loops as
methods with invariants. These include the shuffle loop, the collecting
loops, `countLines`, `bufferToHex`, `hexToBuffer`, `base64ToBuffer` and
`parseResult`. Pure code is modelled as functions, with lemmas relating
them.

Cryptography is not modelled as such:
- WebCrypto wrap/unwrap/import/export, RSA-JWE, SRP and JWT signing become function parameters that may fail.
- Random draws are inputs: `Math.random()` is a real r with 0 <= r < 1, `crypto/rand` a function from step to optional bytes, and generated IVs and key pairs are given values.
- Time is a millisecond count.
- JSON text is left to a codec parameter.

`DrawProtocol.EveryoneDrawsAnother` ties the pieces together. It takes as given:
- encryption is ideal: a ciphertext opens only under the key it was made for;
- the administrator's list satisfies what `SdkApi.SuperSantaApi.Draw` guarantees;
- there are at least two members.

Under these conditions, `finishDraw` succeeds, and member k's
`parseResult` finds exactly the ID at position (k + N - s) mod N, which is
never k. With distinct IDs (`DrawProtocol.ShuffledIdsDistinct`), no member
draws themselves.

Where the repository's files disagree with each other, the model follows
each file as written:
- Group IDs are strings in the group service and the controllers, but `int`
  in the login service and its JWT claims. Each module keeps the type its
  own file uses.
- `decryptPublicKey` and `decryptResult`, which `index.ts` calls, do not
  exist in `crypto_context.ts`. The model takes them as parameters.
- The `INVALID_PUBLIC_KEY` code that `draw` tests is not in
  `CryptoContextErrorCode`. The model adds it to the context error codes so
  the mapping can be stated.

## Model

| member | source | states |
|---|---|---|
| Hex.GoDecode | server/services/auth_service.go:153-161 | `hex.DecodeString` succeeds exactly on even-length strings of hex digits of either case, and yields half as many bytes |
| Hex.Encode | api-sdk/lib/crypto/utils.ts:37-58 | the encoding of n bytes has length 2n and holds lowercase hex digits only |
| Hex.GoDecodeEncode | server/services/auth_service.go:153-168 | decoding the hex encoding of any bytes gives them back |
| Hex.EncodeGoDecode | server/services/auth_service.go:158-168 | re-encoding a decoded salt gives its lowercase form, so the challenge salt is canonical |
| Base64.Btoa | api-sdk/lib/crypto/utils.ts:4-15 | `btoa` succeeds exactly on Latin-1 strings |
| Base64.Atob | api-sdk/lib/crypto/utils.ts:17-35 | whatever `atob` decodes is a Latin-1 string (one byte per character) |
| Base64.AtobBtoa | api-sdk/lib/crypto/utils.ts:4-35 | `atob(btoa(s)) == s` for every Latin-1 s |
| Base64.ForgivingDecodeEncode | api-sdk/lib/crypto/utils.ts:4-35 | the forgiving decoder reads back every standard encoding |
| Base64.GoDecodeEncode | jwk-decrypt-tool/main.go:55-63 | Go's strict `StdEncoding` reads back every standard encoding |
| Base64.GoDecodeAgrees | jwk-decrypt-tool/main.go:55-63 | whatever Go's strict decoder accepts, browser `atob` decodes to the same bytes |
| Base64.BodyShape | client/src/app/APIContext.tsx:14-15 | an unpadded encoding uses only the alphabet, its length is never 1 mod 4, and padding completes it to a multiple of 4 |
| Base64.Encode | api-sdk/lib/crypto/utils.ts:4-15 | a padded encoding fills whole groups of four and holds only alphabet symbols and '=', so no white space, line break or "." |
| Base64.ForgivingDecode | api-sdk/lib/crypto/utils.ts:17-35 | whatever `atob` accepts is made of alphabet symbols, '=' and ASCII white space |
| Base64.GoDecode | jwk-decrypt-tool/main.go:55-63 | whatever Go's `StdEncoding` accepts is made of alphabet symbols, '=', CR and LF |
| Base64.DropPaddingOfEncode | client/src/app/APIContext.tsx:15 | stripping trailing '=' from an encoding leaves exactly its unpadded body |
| ClientCodec.B64uEncode | client/src/app/APIContext.tsx:13-16 | `b64uEncode` succeeds exactly where `btoa` does, on Latin-1 strings |
| ClientCodec.PaddingLength | client/src/app/APIContext.tsx:20 | `(4 - len % 4) % 4` is at most 3 and completes the length to a multiple of 4 |
| ClientCodec.EncodeAlphabet | client/src/app/APIContext.tsx:13-16 | the output has no '=', '+' or '/', and is the base64 body with '+' mapped to '-' and '/' to '_' |
| ClientCodec.EncodedLength | client/src/app/APIContext.tsx:14-15 | an encoded length is never 1 mod 4, so decoding it adds at most two '=' |
| ClientCodec.RestorePadding | client/src/app/APIContext.tsx:18-21 | the padding `b64uDecode` adds is exactly the padding `b64uEncode` stripped |
| ClientCodec.B64uDecode | client/src/app/APIContext.tsx:18-22 | fails where `atob` throws; a decoded value is a binary string, one byte per character |
| ClientCodec.RoundTrip | client/src/app/APIContext.tsx:13-22 | `b64uDecode(b64uEncode(s)) == s` for every Latin-1 s |
| SdkCryptoUtils.ByteToHex | api-sdk/lib/crypto/utils.ts:46 | `toString(16).padStart(2, "0")` of a byte is its two lowercase hex digits |
| SdkCryptoUtils.BufferToHex | api-sdk/lib/crypto/utils.ts:37-58 | the appending loop produces the standard lowercase hex encoding of the buffer |
| SdkCryptoUtils.HexToBuffer | api-sdk/lib/crypto/utils.ts:60-84 | odd length is DECODE_FAILED; otherwise the loop stores `len/2` bytes, byte k being `parseInt` of characters 2k and 2k+1 stored into a `Uint8Array` cell |
| SdkCryptoUtils.LenientDecodeEncode | api-sdk/lib/crypto/utils.ts:37-84 | `hexToBuffer(bufferToHex(b)) == b` |
| SdkCryptoUtils.NotANumberStoresZero | api-sdk/lib/crypto/utils.ts:72-74 | a non-hex pair is not rejected: its NaN is stored as byte 0 |
| SdkCryptoUtils.PartialPairKeepsFirstDigit | api-sdk/lib/crypto/utils.ts:72-74 | a pair with a bad second character stores the value of its first digit |
| SdkCryptoUtils.SignedPairWraps | api-sdk/lib/crypto/utils.ts:72-74 | a signed pair such as "-1" is stored modulo 256, as 255 |
| SdkCryptoUtils.BufferToBase64 | api-sdk/lib/crypto/utils.ts:4-15 | `btoa` of the bytes read as character codes is the standard encoding of the bytes |
| SdkCryptoUtils.Base64ToBuffer | api-sdk/lib/crypto/utils.ts:17-35 | returns the bytes `atob` decodes, or DECODE_FAILED when `atob` throws |
| SdkCryptoUtils.CopyCodes | api-sdk/lib/crypto/utils.ts:20-27 | the copying loop fills the buffer with the string's character codes, which are its bytes |
| SdkCryptoUtils.Base64RoundTrip | api-sdk/lib/crypto/utils.ts:4-35 | `base64ToBuffer(bufferToBase64(b)) == b` |
| SdkCryptoUtils.WrappedToBase64 | api-sdk/lib/crypto/utils.ts:86-88 | a wrapped-key token splits on "." into exactly the IV's encoding followed by the key's |
| SdkCryptoUtils.UndefinedIsNotBase64 | api-sdk/lib/crypto/utils.ts:95-98 | a token without "." fails: its missing half is `undefined`, and `atob("undefined")` fails |
| SdkCryptoUtils.Base64ToWrapped | api-sdk/lib/crypto/utils.ts:90-107 | success exactly when there are at least two segments and both decode; IV from segment 0 and key from segment 1; every failure is DECODE_FAILED |
| SdkCryptoUtils.WrappedRoundTrip | api-sdk/lib/crypto/utils.ts:86-107 | `Base64ToWrapped(wrappedToBase64(w, iv))` gives back `w` and `iv` |
| SdkCryptoUtils.ExtraSegmentsIgnored | api-sdk/lib/crypto/utils.ts:95 | segments after the second "." do not change the result |
| DecryptTool.ParseBase64WrappedKey | jwk-decrypt-tool/main.go:49-69 | wrong part count, bad IV and bad wrapped key are each characterised exactly, in that order of precedence; on success both halves are the Go decodings |
| DecryptTool.ParsesSdkToken | jwk-decrypt-tool/main.go:49-69 | the tool reads every token `wrappedToBase64` writes back as the same IV and key |
| DecryptTool.StricterThanSdk | jwk-decrypt-tool/main.go:49-69 | every token the tool accepts, the SDK's `Base64ToWrapped` accepts with the same halves |
| DecryptTool.ThirdSegmentRefused | jwk-decrypt-tool/main.go:50-53 | a token with a third segment is refused by the tool, though the SDK ignores it |
| DecryptTool.TrimSpace | jwk-decrypt-tool/main.go:194 | `strings.TrimSpace` gives "" exactly when the line is all Unicode white space |
| DecryptTool.ScanLines | jwk-decrypt-tool/main.go:191-193 | one scanned line per '\n', plus one for a final line without '\n'; no line holds a '\n' |
| DecryptTool.CountLines | jwk-decrypt-tool/main.go:183-199 | the scanning loop counts exactly the scanned lines that have a non-space character |
| DecryptTool.TextLinesAppend | jwk-decrypt-tool/main.go:193-197 | the count over two runs of lines is the sum of their counts |
| DecryptTool.AllTextLinesCounted | jwk-decrypt-tool/main.go:193-197 | when no line is blank, every line is counted |
| ServerModels.Value | server/database/models/group.go:19-24 | empty results are SQL NULL; otherwise text with at least one newline between entries |
| ServerModels.Scan | server/database/models/group.go:14-17 | text becomes one more entry than it has newlines, none containing a newline; anything else panics |
| ServerModels.ScanValue | server/database/models/group.go:14-24 | `Scan(Value(r)) == r` for non-empty r whose entries have no newline |
| ServerModels.ValueScan | server/database/models/group.go:14-24 | storing what was read back stores the same text |
| ServerModels.EmptyResultsDoNotRoundTrip | server/database/models/group.go:15-21 | empty results are stored as NULL, which `Scan` cannot read back |
| ServerModels.NewlineSplitsEntry | server/database/models/group.go:14-24 | an entry holding a newline comes back as two entries |
| ServerMiddleware.BearerToken | server/middlewares/auth_middleware.go:23-39 | empty header is missing; success iff longer than "Bearer " and starting with it exactly; the token is non-empty and the header is the prefix plus the token |
| ServerMiddleware.BearerRoundTrip | server/middlewares/auth_middleware.go:31-39 | the header "Bearer " + t is accepted for every non-empty t and yields exactly t |
| ServerMiddleware.PrefixAloneRefused | server/middlewares/auth_middleware.go:31-36 | "Bearer " alone and a lower-case prefix are refused |
| ServerMiddleware.Auth | server/middlewares/auth_middleware.go:22-49 | a refused header or token gives 401 with its message and aborts; a verified token stores its claims and leaves status, body and abort untouched |
| ServerAuth.SrpGetChallenge | server/services/auth_service.go:146-173 | not two "." parts gives "verifier is not valid"; success iff both parts are hex; the session keeps identity, decoded salt and verifier, and the challenge salt is the lowercase re-encoding |
| ServerAuth.ChallengeForRegisteredVerifier | server/services/auth_service.go:146-173 | a verifier token built as hex(verifier).hex(salt) always yields a challenge with that verifier and salt |
| ServerAuth.GenerateSessionID | server/services/auth_service.go:259-270 | the ID is the type name, "-", then 64 hex characters spelling the 32 random bytes, or the fallback digest when the random read fails |
| ServerAuth.SessionIdPrefixesDiffer | server/services/auth_service.go:259-270 | a group-login ID never equals a user-login ID |
| ServerAuth.CompletionOutcome | server/services/auth_service.go:234-256 | non-hex key or proof is a decode error; success iff both decode, are non-empty and SRP completes; the login ID returned is the one the session stored at initiation |
| ServerAuth.VerifyGroupJWT | server/services/auth_service.go:68-84 | accepted iff the token parses, is valid and has subject "guest"; the group ID comes from its claims |
| ServerAuth.VerifyAuthJWT | server/services/auth_service.go:110-126 | accepted iff the token parses, is valid and has a subject other than "guest" |
| ServerAuth.TokenKindsDisjoint | server/services/auth_service.go:79-83 | no token passes both checks, so a group token is never an auth token |
| ServerAuth.AuthService.InitiateGroupLogin | server/services/auth_service.go:175-197 | a missing group or failed challenge stores nothing; success stores the challenge's session under the generated ID, carrying the group ID; a session already under that ID is replaced, as the map write does |
| ServerAuth.AuthService.InitiateUserLogin | server/services/auth_service.go:199-221 | a missing user or failed challenge stores nothing; success stores the session under the generated ID, carrying the user's ID; a session already under that ID is replaced |
| ServerAuth.AuthService.CompleteLogin | server/services/auth_service.go:223-257 | an unknown ID is an invalid session with nothing changed; a known session is removed whatever the outcome, so it cannot be used twice |
| ServerGroups.ReadUint64 | server/services/group_service.go:106-111 | the OR-shift loop reads the eight bytes as a little-endian number below 2^64 |
| ServerGroups.Shuffle | server/services/group_service.go:100-115 | a completed shuffle has as many entries as the member list |
| ServerGroups.SwapIndexInRange | server/services/group_service.go:111 | every swap partner j lies in [0, i] |
| ServerGroups.SwapPermutation | server/services/group_service.go:114 | one swap permutes the list |
| ServerGroups.ShufflePermutation | server/services/group_service.go:100-115 | the shuffled list is a permutation of the members |
| ServerGroups.ShuffleMap | server/services/group_service.go:100-133 | shuffling moves whole records, so IDs and keys taken after the shuffle are the shuffle of IDs and keys taken before |
| ServerGroups.Ids | server/services/group_service.go:117-121 | entry k is member k's ID |
| ServerGroups.PublicKeySecrets | server/services/group_service.go:128-132 | entry k is member k's wrapped public key |
| ServerGroups.EncryptEntry | server/services/group_service.go:157-175 | succeeds iff the key parses as RSA with RSA-OAEP-256 and encryption succeeds, giving the encryption of the ID to that key |
| ServerGroups.EncryptAll | server/services/group_service.go:154-176 | on success there is one entry per stored ID |
| ServerGroups.EncryptAllPositional | server/services/group_service.go:154-176 | entry i encrypts stored ID i to key i |
| ServerGroups.EncryptAllFirstFailure | server/services/group_service.go:154-176 | a failure is the error of the first position whose key or encryption fails |
| ServerGroups.EncryptAllPrefixFails | server/services/group_service.go:154-176 | once a prefix fails, the later entries do not matter |
| ServerGroups.GroupService.CreateGroup | server/services/group_service.go:34-45 | a verifier not of two "." parts is refused with nothing stored; a failed insert (or one under an ID already taken) stores nothing; otherwise the group is stored under its new ID with the admin as its only member, marked admin; no other group changes |
| ServerGroups.GroupService.InitDraw | server/services/group_service.go:86-135 | unknown group and fewer than 3 members fail with nothing changed; otherwise the shuffled IDs replace any earlier draw session and the keys are returned in the same order |
| ServerGroups.GroupService.FinishDraw | server/services/group_service.go:137-192 | without a session nothing changes; with one it is consumed on every path; a length mismatch is an invalid key; results are stored only when every entry encrypts; a refused update is a store failure |
| ServerGroups.ShuffleInPlace | server/services/group_service.go:100-115 | the in-place swap loop leaves the array holding the shuffle, and reports a failed random read |
| ServerGroups.CollectIds | server/services/group_service.go:117-121 | the filling loop yields the members' IDs in order |
| ServerGroups.CollectPublicKeySecrets | server/services/group_service.go:128-132 | the filling loop yields the members' wrapped keys in order |
| ServerGroups.EncryptResults | server/services/group_service.go:154-176 | the encrypting loop returns the positional results, or the first failure |
| ServerControllers.InitDrawStatus | server/controllers/group.go:192-226 | 200 iff the caller is admin, the group exists, has no results, has at least 3 members and the shuffle succeeds |
| ServerControllers.FinishDrawStatus | server/controllers/group.go:229-265 | 200 iff admin, group known without results, body bound, session present, lengths equal, every entry encrypts and the update is accepted |
| ServerControllers.DrawAtMostOnce | server/controllers/group.go:212-215 | once results exist, both draw endpoints answer an admin 409 whatever the request, so a draw is neither started nor finished twice |
| ServerControllers.InitDraw | server/controllers/group.go:192-226 | the status is `InitDrawStatus`; only a 200 changes the draw sessions, and it answers the shuffled wrapped keys |
| ServerControllers.FinishDraw | server/controllers/group.go:229-265 | 403/404/409/400 touch nothing; 500 leaves results unset and the session consumed; 200 stores the positional results and answers no body |
| ServerControllers.JoinGroupStatus | server/controllers/group.go:110-156 | 201 iff the body binds, the group token verifies, its group exists and the user is created |
| ServerControllers.JoinGroup | server/controllers/group.go:110-156 | the status is `JoinGroupStatus`; a 201 answers the new user in the token's group, never an administrator |
| DrawRotation.ShiftAmount | api-sdk/lib/index.ts:340-342 | for N >= 2 and 0 <= r < 1 the shift lies in [1, N-1]; one key gets shift 1 |
| DrawRotation.RotateAt | api-sdk/lib/index.ts:344-349 | the rotated list has length N and position i holds key (i + s) mod N |
| DrawRotation.Rotate | api-sdk/lib/index.ts:344-349 | the rotated list is a permutation of the keys |
| DrawRotation.NoFixedPoint | api-sdk/lib/index.ts:344-349 | for 1 <= s <= N-1 no position maps to itself |
| DrawRotation.RotateDerangement | api-sdk/lib/index.ts:344-349 | with distinct keys no position keeps its own key |
| DrawRotation.IterateClosedForm | api-sdk/lib/index.ts:344-349 | following the assignment k times from i lands on (i + k*s) mod N |
| DrawRotation.ShortCycle | client/src/app/page.tsx:75 | when s and N share a factor d > 1, the assignment returns to its start after N/d < N steps, so it is one cycle only when gcd(s, N) = 1 |
| DrawRotation.FourWithShiftTwo | client/src/app/page.tsx:75 | four members with shift 2 form two separate pairs |
| SdkStorage.LocalStorage.GetItem | api-sdk/lib/api/auth_context.ts:43 | present iff the key is stored, and then its value |
| SdkStorage.LocalStorage.SetItem | api-sdk/lib/api/auth_context.ts:30 | the key now maps to the value and nothing else changes |
| SdkStorage.LocalStorage.RemoveItem | api-sdk/lib/api/auth_context.ts:54 | the key is gone and nothing else changes |
| SdkAuthContext.IsTokenValidAsWritten | api-sdk/lib/api/auth_context.ts:71-95 | as written: never valid without exactly three segments; the payload is read with `atob` |
| SdkAuthContext.AsWrittenRejectsUrlAlphabet | api-sdk/lib/api/auth_context.ts:80 | a live token whose payload segment holds '-' is rejected by the check as written and accepted by the corrected one |
| SdkAuthContext.IsTokenValid | api-sdk/lib/api/auth_context.ts:71-95 | never valid without exactly three segments; the payload is decoded as base64url |
| SdkAuthContext.TokenSegments | api-sdk/lib/api/auth_context.ts:74-77 | header.payload.signature splits into exactly those three |
| SdkAuthContext.DecodesEncodedPayload | api-sdk/lib/api/auth_context.ts:74-80 | the corrected check reads back the payload of every token `header.b64url(json).signature` |
| SdkAuthContext.Expired | api-sdk/lib/api/auth_context.ts:83-91 | a missing or zero `exp` never expires; any other expires from millisecond (exp + 301) * 1000 on |
| SdkAuthContext.ExpiryMargin | api-sdk/lib/api/auth_context.ts:83-91 | with a non-zero `exp`, valid exactly while the current second is at most `exp + 300` |
| SdkAuthContext.NoExpiryNeverExpires | api-sdk/lib/api/auth_context.ts:84-91 | a payload without `exp`, or with `exp` 0, is always valid |
| SdkAuthContext.ValidEarlier | api-sdk/lib/api/auth_context.ts:83-91 | a token valid at some time was valid at every earlier time |
| SdkAuthContext.AuthContext.SetGroupToken | api-sdk/lib/api/auth_context.ts:8-12 | sets the group token and drops the auth token, so at most one is held |
| SdkAuthContext.AuthContext.SetAuthToken | api-sdk/lib/api/auth_context.ts:13-17 | sets the auth token and drops the group token, so at most one is held |
| SdkAuthContext.AuthContext.GetAuthHeader | api-sdk/lib/api/auth_context.ts:21-23 | "Bearer " followed by the auth token when it is non-empty, and "" when there is none or it is empty |
| SdkAuthContext.AuthContext.IsAuthTokenValid | api-sdk/lib/api/auth_context.ts:57-62 | valid only with a non-empty auth token of three segments |
| SdkAuthContext.AuthContext.IsGroupTokenValid | api-sdk/lib/api/auth_context.ts:64-69 | valid only with a non-empty group token of three segments |
| SdkAuthContext.AuthContext.Save | api-sdk/lib/api/auth_context.ts:25-32 | storage is written, and true returned, exactly when the auth token is valid |
| SdkAuthContext.AuthContext.Load | api-sdk/lib/api/auth_context.ts:38-50 | true iff a valid token ends up held; a valid held token is kept without reading storage; otherwise a valid stored token is adopted; the group token is left as it was |
| SdkAuthContext.AuthContext.Clear | api-sdk/lib/api/auth_context.ts:51-55 | both tokens dropped and only the stored token removed |
| SdkCryptoContext.ImportedKey | api-sdk/lib/crypto_context.ts:50-66 | failures are DECODE_FAILED (always, for a malformed token) or UNWRAP_FAILED |
| SdkCryptoContext.ImportRestoresWrappedKey | api-sdk/lib/crypto_context.ts:50-66 | importing the token `createUserKeys` emits for a private key gives that key back |
| SdkCryptoContext.CryptoContext.SetSecretKey | api-sdk/lib/crypto_context.ts:34-37 | overwrites the secret key unconditionally and keeps the private key |
| SdkCryptoContext.CryptoContext.HasSecretKey | api-sdk/lib/crypto_context.ts:38-40 | true iff a secret key is held |
| SdkCryptoContext.CryptoContext.SetPrivateKey | api-sdk/lib/crypto_context.ts:42-45 | overwrites the private key unconditionally and keeps the secret key |
| SdkCryptoContext.CryptoContext.HasPrivateKey | api-sdk/lib/crypto_context.ts:46-48 | true iff a private key is held |
| SdkCryptoContext.CryptoContext.IsComplete | api-sdk/lib/crypto_context.ts:67-69 | complete iff both keys are held |
| SdkCryptoContext.CryptoContext.ImportPrivateKey | api-sdk/lib/crypto_context.ts:50-66 | on success the private key is replaced whatever it was; on failure nothing changes; the secret key is untouched |
| SdkCryptoContext.CryptoContext.SaveToLocalStorage | api-sdk/lib/crypto_context.ts:71-88 | INCOMPLETE with nothing stored unless both keys are held; a failed export stores nothing; otherwise both exports are stored as one entry |
| SdkCryptoContext.CryptoContext.LoadFromLocalStorageAsWritten | api-sdk/lib/crypto_context.ts:94-120 | as written: nothing to do when complete; NOT_FOUND, parse failure and INCOMPLETE as in the source; a load passing every check installs no key, so the context stays incomplete |
| SdkCryptoContext.CryptoContext.LoadFromLocalStorage | api-sdk/lib/crypto_context.ts:94-120 | the same checks, then both stored keys imported; success leaves the context complete |
| SdkCryptoContext.CryptoContext.Clear | api-sdk/lib/crypto_context.ts:122-126 | both keys dropped and only the stored entry removed |
| SdkCryptoContext.CryptoContext.CreateSecretKey | api-sdk/lib/crypto_context.ts:133-153 | OVERWRITE with nothing changed when a secret key is held; otherwise installs the verifier's key and returns `verifier.salt` |
| SdkCryptoContext.CryptoContext.CreateUserKeys | api-sdk/lib/crypto_context.ts:163-212 | MISSING_SECRET_KEY before OVERWRITE; the private key is installed before wrapping; private key wrapped under the password key and public key under the secret key, each with its own IV, emitted as `iv.wrapped` tokens |
| SdkCryptoContext.UserKeysUnwrap | api-sdk/lib/crypto_context.ts:182-211 | when unwrap inverts wrap, the private-key token opens under the password key and the public-key token under the secret key, giving the generated pair back |
| SdkCryptoContext.SaveThenLoad | api-sdk/lib/crypto_context.ts:71-120 | with inverse export/import and a faithful JSON codec, a saved context loads back into a fresh one with the same keys |
| SdkApi.DecryptAll | api-sdk/lib/index.ts:308-311 | all keys decrypted in order, or the error of the first key that fails |
| SdkApi.DrawError | api-sdk/lib/index.ts:312-338 | BAD_DRAW exactly for UNWRAP_FAILED and INVALID_PUBLIC_KEY, UNKNOWN_ERROR for anything else |
| SdkApi.RotationIsShiftedDraw | api-sdk/lib/index.ts:340-349 | the rotated list is a permutation in which position i holds key (i + s) mod N, with s in [1, N-1] for two or more keys |
| SdkApi.FirstDecrypted | api-sdk/lib/index.ts:378-383 | a found ID is non-empty and is the decryption of some result; none found means no result decrypts to a truthy ID |
| SdkApi.FindUser | api-sdk/lib/index.ts:386 | a found user is a member with that ID; none found means no member has it |
| SdkApi.SuperSantaApi.CreateGroup | api-sdk/lib/index.ts:86-117 | BAD_CRYPTO_CONTEXT with nothing changed when a key is held; a failing secret verifier leaves both slots empty; past it the secret key stays installed, and past the password verifier the private key too, even when a later step fails; success sends the encoded secret verifier with the password verifier and the two `iv.wrapped` tokens of `createUserKeys` |
| SdkApi.SuperSantaApi.LoginUser | api-sdk/lib/index.ts:150-171 | BAD_CRYPTO_CONTEXT with nothing changed without a secret key; a failed login or import changes nothing; otherwise the imported key is installed, and stored with the secret key as one JSON entry, or EXPORT_FAILED with the key still installed and nothing stored |
| SdkApi.SuperSantaApi.JoinGroup | api-sdk/lib/index.ts:238-255 | BAD_CRYPTO_CONTEXT without a secret key and OVERWRITE with a private key held, both changing nothing; otherwise the new private key is installed and the result is the wrapped keys under the group's secret key |
| SdkApi.SuperSantaApi.Logout | api-sdk/lib/index.ts:199-202 | both contexts cleared and both stored entries removed |
| SdkApi.SuperSantaApi.Auth | api-sdk/lib/index.ts:184-197 | a failed load or a 401 logs everything out and gives no user; a user is returned with a complete context and a valid token; any other request failure rejects with UNKNOWN_ERROR, both contexts loaded and storage untouched |
| SdkApi.SuperSantaApi.Draw | api-sdk/lib/index.ts:296-351 | BAD_CRYPTO_CONTEXT without a secret key; a failed `initDraw` is passed on; a decryption failure is mapped and nothing is sent; when every key decrypts the draw succeeds, and the list sent is a shifted draw of the decrypted keys |
| SdkApi.SuperSantaApi.ParseResult | api-sdk/lib/index.ts:365-395 | BAD_CRYPTO_CONTEXT when incomplete; no result when results are absent or empty; else the member named by the first truthy decryption, or BAD_RESULT |
| DrawProtocol.DrawnReceivesKey | api-sdk/lib/index.ts:346-349 | exactly one position receives key k, and for 1 <= s <= N-1 it is not k |
| DrawProtocol.FirstDecryptedAt | api-sdk/lib/index.ts:380-383 | the scan stops at the first result that decrypts to a truthy ID |
| DrawProtocol.AllEntriesEncrypt | server/services/group_service.go:154-176 | with every key valid, encrypting all IDs succeeds |
| DrawProtocol.EveryoneDrawsAnother | server/services/group_service.go:154-176 | with ideal encryption and a shifted draw, finishing succeeds and member k reads exactly the ID at position (k + N - s) mod N, never their own position |
| DrawProtocol.NobodyDrawsThemselves | api-sdk/lib/index.ts:345-349 | with distinct IDs the drawn ID is another member's |
| DrawProtocol.SwapDistinct | server/services/group_service.go:114 | a swap keeps distinct entries distinct |
| DrawProtocol.ShuffleDistinct | server/services/group_service.go:100-115 | the shuffle keeps distinct entries distinct |
| DrawProtocol.ShuffleIds | server/services/group_service.go:100-121 | the session's IDs are the shuffle of the members' IDs |
| DrawProtocol.ShuffledIdsDistinct | server/services/group_service.go:100-126 | the draw session holds the members' IDs, each once |
| DrawProtocol.AuthHeaderAccepted | server/middlewares/auth_middleware.go:24-39 | the SDK's header passes the server's bearer parsing with the same token, and no token means a missing header |

## Left out

- Network calls are left out:
  - `groupAPI` and `authAPI` requests are outcome parameters;
  - `createGroup`'s and `joinGroup`'s follow-up requests and logins, and `draw`'s closing `getGroup`/`parseResult`/`console.log`, are not modelled.
- The HTTP plumbing in the controllers is left out: gin binding, JSON bodies and `MustGet`. A body that does not bind is an absent request.
- Persistence is reduced to outcomes:
  - In the login service, database errors other than "not found" are one "store failed" outcome.
  - The group insert of `CreateGroup`, the group update of `FinishDraw` and the user insert of `JoinGroup` are boolean outcome parameters.
  - A `GetGroup` failure other than "not found" answers 500 in the controllers (server/controllers/group.go:130-132, 208-210, 244-246). The model has only "found" and "not found".
  - The notification emails after `CreateGroup` and `FinishDraw` are not modelled; their failure is only logged.
- The cryptography is not modelled: WebCrypto, RSA-JWE, SRP arithmetic, PBKDF2 and JWT signing. Each is a parameter that may fail.
- SdkApi.SuperSantaApi.Draw: `Promise.all` rejects with the error of the first promise to settle. The model reports the first failing key in index order, because settling order is timing.
- SdkApi.SuperSantaApi.Draw: the random shift is a real parameter. Floating-point rounding of `Math.random() * (N - 1)` is not modelled.
- SdkApi.SuperSantaApi.Auth uses the corrected `loadFromLocalStorage` and the corrected token check. With the load as written (api-sdk/lib/crypto_context.ts:110-117, see Findings), `auth()` can return a user while the crypto context stays incomplete; the model does not show that path.
- SdkApi.SuperSantaApi.LoginUser: the login request is one outcome parameter. The auth token that `getAuthToken` stores and saves (api-sdk/lib/api/auth.ts:174-175) is not modelled there.
- SdkAuthContext.AuthContext.IsAuthTokenValid, SdkAuthContext.AuthContext.IsGroupTokenValid, SdkAuthContext.AuthContext.Save and SdkAuthContext.AuthContext.Load use the corrected token check `SdkAuthContext.IsTokenValid`. The as-written check, `SdkAuthContext.IsTokenValidAsWritten`, is kept beside it (see Findings).
- DecryptTool.CountLines: the content is given as a string, so the `os.Open` failure (jwk-decrypt-tool/main.go:185-189) is not modelled. Neither is `bufio.Scanner`'s 64 KiB token limit: on a longer line the source stops with `ErrTooLong` and returns it (main.go:198), after which `main` exits. The model counts every line whatever its length.
- SdkCryptoUtils.BufferToBase64: the spread into `String.fromCharCode` can throw a RangeError on a very large buffer, which the source reports as ENCODE_FAILED. The model has no size limit, so it never fails.
- Strings are sequences of UTF-16 code units: each Dafny character stands for one JavaScript code unit. Characters outside the Basic Multilingual Plane are not modelled as surrogate pairs, so a length the model sees can differ from JavaScript's for such text.
- JSON parsing and serialising are codec parameters. The `exp` claim is read as an optional integer.
- Go's `crypto/rand` modulo bias and the uniformity of either random source are not modelled. Each random read is an input.
- The React hook `initAPIContext`, the client pages and the DTO declarations are not modelled.
- The login-service revision passes a session type to `CompleteLogin` in `server/controllers/auth.go:132`. The model follows `auth_service.go:223`, which takes none.
- ServerGroups.GroupService.CreateGroup: the UUID that `BeforeCreate` assigns (server/database/models/group.go:40-44) is a parameter, and its uniqueness is not assumed: an insert under a taken ID counts as a failed insert.
- `getGroupToken`, `getUser`, `getGroup`, `getGroupInfo`, `updateWishes` and `deleteUser` are plain accessors or single network calls. They are not modelled.

## Findings

| source | as written | input that shows it | evidently intended | confidence | as-written member | corrected member |
|---|---|---|---|---|---|---|
| api-sdk/lib/api/auth_context.ts:80 | the JWT payload segment is decoded with `atob`, which accepts only the standard base64 alphabet | a token `h.-A.s` whose payload segment holds '-' (any payload whose base64url encoding has '-' or '_') is called invalid, however far off its expiry | decode the payload as unpadded base64url (section 5 of RFC 4648); latent for this server, whose claims (server/services/auth_service.go:50-58, 95-104) are ASCII JSON without '>', '?' or '~', so their base64url never holds '-' or '_' | not executed | SdkAuthContext.AsWrittenRejectsUrlAlphabet | SdkAuthContext.DecodesEncodedPayload |
| api-sdk/lib/crypto_context.ts:110-117 | `Promise.all` receives two async functions that are never called, so neither key is imported | a stored entry holding both exported keys, loaded into an empty context: the load succeeds and the context stays incomplete | call both imports and wait for them, so a successful load leaves both keys installed | not executed | SdkCryptoContext.CryptoContext.LoadFromLocalStorageAsWritten | SdkCryptoContext.CryptoContext.LoadFromLocalStorage |
