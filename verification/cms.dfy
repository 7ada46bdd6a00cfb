/** The parts of a CMS SignedData object (RFC 5652 section 5) that the
    co-signing code handles, with the BouncyCastle parser, generator and
    encoder reduced to what they do with those parts. Signer records and
    certificates are opaque values: only their identity matters here. */
module Cms {
  import opened Optional
  import opened Base64

  /** One `SignerInfo` (RFC 5652 section 5.3), kept as its encoding. */
  datatype SignerInfo = SignerInfo(encoding: seq<byte>)

  /** One certificate of the `certificates` field, kept as its encoding. */
  datatype Certificate = Certificate(encoding: seq<byte>)

  /** What asking a parsed object for its certificates gives: no store at all,
      a store whose enumeration yields `certificates`, or a store whose
      enumeration throws. */
  datatype CertificateStore =
    | NoStore
    | Store(certificates: seq<Certificate>)
    | FailingStore

  /** A parsed `CmsSignedData`: its signer records and its certificate store. */
  datatype ParsedCms = ParsedCms(signers: seq<SignerInfo>, store: CertificateStore)

  /** A generated SignedData object. */
  datatype SignedData = SignedData(
    content: seq<byte>,
    encapsulated: bool,
    signers: seq<SignerInfo>,
    certificates: seq<Certificate>)

  /** `CmsSignedDataGenerator`: the signers and certificates added so far. */
  datatype Generator = Generator(signers: seq<SignerInfo>, certificates: seq<Certificate>)

  /** The library's parse (`new CmsSignedData(bytes)`, `None` when it throws)
      and encode (`GetEncoded`) operations. */
  datatype Codec = Codec(
    parse: seq<byte> -> Option<ParsedCms>,
    encode: SignedData -> seq<byte>)

  const EmptyGenerator: Generator := Generator([], [])

  /** `AddSigners`: append the records, in order. */
  function AddSigners(g: Generator, signers: seq<SignerInfo>): Generator
  {
    g.(signers := g.signers + signers)
  }

  /** `AddCertificates`: append the certificates of a store. */
  function AddCertificateList(g: Generator, certificates: seq<Certificate>): Generator
  {
    g.(certificates := g.certificates + certificates)
  }

  /** `Generate(content, encapsulate)`. */
  function Generate(g: Generator, content: seq<byte>, encapsulate: bool): SignedData
  {
    SignedData(content, encapsulate, g.signers, g.certificates)
  }

  /** The certificates a store would contribute if enumerated successfully. */
  function StoreCertificates(store: CertificateStore): seq<Certificate>
  {
    if store.Store? then store.certificates else []
  }
}
