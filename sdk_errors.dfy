/** The exceptions the TypeScript SDK throws, as tagged values: the error
    codes of `CryptoError` (api-sdk/lib/crypto/errors.ts), of
    `CryptoContextError`, of `SuperSantaAPIError` and of `AuthAPIError`
    (api-sdk/lib/api/auth.ts), plus everything else (DOM exceptions,
    transport errors) as one kind. */
module SdkErrors {

  datatype CryptoErrorCode =
    | DecodeFailed | EncodeFailed
    | WrapFailed | UnwrapFailed
    | ExportFailed | ImportFailed
    | EncryptionFailed | DecryptionFailed

  /** `InvalidPublicKey` is referred to by the draw but is not among the
      codes of the context's own enumeration (see README). */
  datatype ContextErrorCode =
    | Overwrite | MissingSecretKey | Incomplete | NotFound | UnknownContextError
    | InvalidPublicKey

  datatype ApiErrorCode = BadCryptoContext | BadDraw | BadResult | UnknownError

  datatype AuthApiErrorCode =
    | BadGroupId | BadSecret | GroupAuthError
    | BadEmail | BadPassword | AuthError
    | UnknownAuthError

  datatype Exception =
    | CryptoError(crypto: CryptoErrorCode)
    | ContextError(context: ContextErrorCode)
    | ApiError(api: ApiErrorCode)
    | AuthApiError(auth: AuthApiErrorCode)
    | OtherError
}
