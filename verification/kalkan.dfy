/** The NKalkan provider as an oracle. Its native calls are not modelled; each
    becomes a total function field of `Provider` that answers either a value or
    the exception the call throws. The keystore the provider holds is explicit
    state (`KeyStoreState`) passed into and returned from every operation. */
module Kalkan {
  import opened Optional
  import opened Base64

  /** `KalkanSignFlags`: the options of the flag-based sign and verify calls. */
  datatype SignFlag =
    | SignCms
    | InputPem
    | InputDer
    | InputBase64
    | OutputPem
    | OutputDer
    | OutputBase64
    | DetachedData
    | WithTimestamp
    | DoNotCheckCertificateTime

  datatype StorageType = PKCS12 | KazToken

  /** `KalkanInputFormat` / `KalkanOutputFormat` members. */
  datatype DataFormat = PemFormat | Base64Format | DerFormat

  /** The two ways the modelled code asks the provider to sign. */
  datatype SignRequest =
    | FlagSign(flags: set<SignFlag>)
    | CmsSign(input: set<DataFormat>, output: set<DataFormat>)

  datatype CertificateProperty =
    | SubjectCommonName
    | IssuerCommonName
    | SubjectSerialNumber
    | NotBefore
    | NotAfter

  /** The exception types the modelled code distinguishes; `OtherException`
      is any other type the provider may throw, which the fallback treats
      differently from `InvalidOperation`. */
  datatype ExceptionKind = InvalidOperation | FormatError | NullReference | OtherException

  datatype Exception = Exception(kind: ExceptionKind, message: string)

  /** What a call that may throw gives back. */
  datatype Outcome<T> = Ok(value: T) | Threw(error: Exception)

  /** The keystore currently loaded into the provider. */
  datatype KeyStoreState = NoKeyStore | Loaded(storage: StorageType, keyStore: string)

  /** A successful verification: the provider's report and the data it returns. */
  datatype Verified = Verified(info: string, data: Option<string>)

  datatype Provider = Provider(
    /** `LoadKeyStoreFromBase64`: `None` when it loads, the exception otherwise. */
    load: (StorageType, string, string) -> Option<Exception>,
    /** `SignData`, producing base64 or PEM text. */
    sign: (KeyStoreState, seq<byte>, SignRequest) -> Outcome<string>,
    /** `VerifyData` over the document bytes, the signature text and the flags. */
    verify: (KeyStoreState, seq<byte>, string, set<SignFlag>) -> Outcome<Verified>,
    /** `ExportCertificateFromStore`. */
    exportCertificate: KeyStoreState -> Outcome<string>,
    /** `GetCertificateProperty`. */
    certificateProperty: (KeyStoreState, string, CertificateProperty) -> Outcome<string>)

  /** Loading a keystore: on success the provider holds it; on failure the
      state is left as it was. */
  function LoadKeyStore(p: Provider, ks: KeyStoreState, storage: StorageType, keyStore: string, password: string): (r: (Option<Exception>, KeyStoreState))
    ensures r.0 == p.load(storage, keyStore, password)
    ensures r.0.None? ==> r.1 == Loaded(storage, keyStore)
    ensures r.0.Some? ==> r.1 == ks
  {
    match p.load(storage, keyStore, password)
    case None => (None, Loaded(storage, keyStore))
    case Some(e) => (Some(e), ks)
  }
}
