# EdsNcaLayer signing core in Dafny

This project models the sequential logic of the EdsNcaLayer backend and frontend helpers. It covers three parts:

- **Co-signing** (`CmsCoSigningService`). The service cleans PEM-armoured or whitespace-broken base64 text (PEM is the textual encoding of section 2 of RFC 7468). It reads the existing CMS SignedData object (section 5 of RFC 5652) from that text and asks the NKalkan provider for a new signature over the same content. It then merges both objects' signer records and certificates into one object that carries the content.
- **Document service** (`DocumentSignService`):
  - batch signing, where each document's failure stays with that document and a keystore-load failure fails every document;
  - certificate inspection and its error-message mapping;
  - storage-type parsing;
  - CMS verification: PEM extraction, attached versus detached flags, a fixed three-step fallback, and the classification of failures into response messages.
- **Frontend helpers** (`common.js`): the NCALayer request envelope, Windows path normalisation, directory and file-name extraction, and the file-info picker.

The native NKalkan library is a `Provider` oracle: a record of total functions that answer either a value or the exception the call throws. The keystore the provider holds is explicit state, passed in and returned. BouncyCastle's CMS parser and encoder are a `Codec` oracle, and signer records and certificates are opaque values. `Convert.FromBase64String` and `Convert.ToBase64String` are modelled in full (module `Base64`), including the characters the decoder skips. That is what lets the project prove the cleaning, the PEM round trip and the rejection of invalid text.

Modules, one per file:

| file | module | content |
|---|---|---|
| optional.dfy | `Optional` | `Option` |
| text.dfy | `Text` | `Contains`, `Split`, `Join`, `LastIndexOf`, white space, upper-casing |
| base64.dfy | `Base64` | .NET base64 decoder and encoder, round trip |
| armor.dfy | `Armor` | the PEM line filter shared by co-signing and verification |
| kalkan.dfy | `Kalkan` | provider oracle, flags, exceptions, keystore state |
| cms.dfy | `Cms` | signer records, certificates, generator, codec oracle |
| cosigning.dfy | `CoSigning` | `CleanBase64`, `AddCertificates`, `MergeSignatures`, `AddCoSignature` |
| documentsign.dfy | `DocumentSign` | `ParseStorageType`, `SignDocumentsBatch`, `GetCertificateInfo` |
| verification.dfy | `Verification` | `VerifyCmsSignature` and its fallback |
| common.dfy | `Common` | `createRequest`, `normalizePath`, `getDirPath`, `getFileName`, `extractFileInfo` |

## Model

| member | source | states |
|---|---|---|
| CoSigning.CleanBase64 | Backend/Services/CmsCoSigningService.cs:36-49 | The cleaned text is the armour-stripped text with every CR, LF, space and tab removed; none of the four is left. |
| CoSigning.CleanRemovesInsertedSpaces | Backend/Services/CmsCoSigningService.cs:48 | CR, LF, space and tab inserted anywhere into unarmoured base64 text are removed, and every other character keeps its order. |
| Armor.StripArmorWrap | Backend/Services/CmsCoSigningService.cs:38-46 | The same filter is the verify-side extraction of Backend/Services/DocumentSignService.cs:152 and 170-181. For armoured text (a header, base64 lines each ended by LF or CRLF, a footer, then any blank text such as a final line end or blank lines), lines with a BEGIN or END marker and blank lines are dropped, and the base64 lines survive in their original order, concatenated. |
| CoSigning.CleanArmoured | Backend/Services/CmsCoSigningService.cs:36-49 | Cleaning PEM-armoured base64 lines, with LF or CRLF line ends and with or without line ends or blank lines after the footer, gives exactly the lines concatenated. |
| CoSigning.PemRoundTrip | Backend/Services/CmsCoSigningService.cs:36-49 | For base64 text b, cleaning "-----BEGIN PKCS7-----\n" + b + "\n-----END PKCS7-----" yields exactly b, the empty b included. |
| CoSigning.ReadCms | Backend/Services/CmsCoSigningService.cs:13-14 | Text that does not decode fails as a format error. Text that decodes but does not parse fails as a CMS error on the same side. Otherwise the object is whatever the parser makes of the decoded bytes. |
| CoSigning.FailsBeforeSigning | Backend/Services/CmsCoSigningService.cs:12-19 | When the existing text does not clean, decode and parse, co-signing fails with the same result whatever the provider and keystore: the signer is never consulted. |
| CoSigning.ForeignCharRejected | Backend/Services/CmsCoSigningService.cs:12-13 | Unarmoured text with a character outside the alphabet, the padding and the skipped spaces fails with a base64 format error on the existing side. |
| CoSigning.InvalidBase64Rejected | Backend.Tests/Services/CmsCoSigningServiceTests.cs:63-71 | The text "not-valid-base64!!!" fails with a base64 format error. |
| CoSigning.PemWrappedNotFormatError | Backend.Tests/Services/CmsCoSigningServiceTests.cs:101-115 | PKCS7-armoured base64 of any bytes is read as exactly those bytes, so co-signing it never fails with a base64 format error on the existing side. |
| CoSigning.AddCertificates | Backend/Services/CmsCoSigningService.cs:72-98 | Signers are untouched. Certificates grow by exactly the store's certificates: none for a missing or empty store. An enumeration failure adds none and leaves one warning. |
| CoSigning.MergeSignatures | Backend/Services/CmsCoSigningService.cs:58-70 | Merged signers are the existing ones followed by the new ones: a multiset union with summed count. Certificates are the existing store's followed by the new store's. The content is attached. The warnings are one per store whose enumeration throws, existing side first. |
| CoSigning.AddCoSignature | Backend/Services/CmsCoSigningService.cs:8-34 | A read failure of the existing text is the result, and so is a failure of the new signature (signing or reading it) once the existing one reads. Success happens exactly when both objects read. The new signature is the one the provider makes with the flags SignCms, WithTimestamp and OutputBase64 (line 54 of the same file). The result holds existing then new signers, the certificates of both stores and the attached content. Its text is the base64 encoding of the encoded merged object, and so decodes back to it. Its warnings are one per store whose enumeration throws, then a count warning exactly when the new signature does not hold one signer. |
| CoSigning.CountMismatchOnlyWarns | Backend/Services/CmsCoSigningService.cs:28-33 | With both objects read, the result is always produced; a signer-count warning appears exactly when the new signature does not hold one signer. |
| CoSigning.CoSigningChains | Backend/Services/CmsCoSigningService.cs:8-34 | The output text of a co-signing is accepted as existing text when the codec reads back the encoded signers in any order. Co-signing it again with a one-signer signature adds exactly that signer to the multiset of signers, with no count warning. |
| Base64.DecodeEncode | Backend/Services/CmsCoSigningService.cs:33 | Decoding the encoder's output gives back the bytes. |
| Base64.DecodeRejects | Backend/Services/CmsCoSigningService.cs:13 | A character that is not base64, padding, CR, LF, space or tab makes decoding fail. |
| Base64.DecodeIgnoresSpaces | Backend/Services/CmsCoSigningService.cs:13 | The decoder skips CR, LF, space and tab: removing them first does not change the result. |
| Kalkan.LoadKeyStore | Backend/Services/DocumentSignService.cs:34 | A successful load leaves the provider holding the requested keystore; a failed one leaves the state as it was. |
| DocumentSign.ParseStorageType | Backend/Services/DocumentSignService.cs:320-328 | Total; the token is chosen exactly when the text is "KAZTOKEN" ignoring letter case; everything else, "PKCS12" included, is PKCS12. |
| DocumentSign.UpperIsKazToken | Backend/Services/DocumentSignService.cs:322-325 | Upper-casing the text gives "KAZTOKEN" exactly when the text equals it ignoring case, character by character. |
| DocumentSign.ParseStorageTypeIgnoresCase | Backend/Services/DocumentSignService.cs:322 | Upper-casing the text before parsing does not change the storage type chosen. |
| DocumentSign.SignOne | Backend/Services/DocumentSignService.cs:39-64 | A record keeps the file name. It succeeds exactly when the document decodes and the provider signs it, and it then carries that signature. Otherwise it carries an error message: the format error for bad base64, the provider's exception text for a failed signing. |
| DocumentSign.SignEach | Backend/Services/DocumentSignService.cs:36-65 | One record per document, in input order, each depending on its document alone; the success count is the number of successful records and successes plus failures is the document count. |
| DocumentSign.FailAll | Backend/Services/DocumentSignService.cs:74-87 | Records carry the file names deduplicated in first-occurrence order. Each record is a failure that carries the load error. |
| DocumentSign.DedupMembers | Backend/Services/DocumentSignService.cs:77 | Deduplication keeps every file name of the batch and adds none. |
| DocumentSign.DedupDistinct | Backend/Services/DocumentSignService.cs:77 | No file name is recorded twice. |
| DocumentSign.DedupKeepsAll | Backend/Services/DocumentSignService.cs:75-87 | Every document gets its own failure record exactly when the file names are pairwise distinct; duplicates collapse. |
| DocumentSign.SignDocumentsBatch | Backend/Services/DocumentSignService.cs:23-91 | The total is the document count. After a load, records are per document in order, the counts add up, and the message reports both counts. After a load failure, nothing succeeds, the message carries the error, and every distinct file name fails once with it. |
| DocumentSign.CertificateErrorMessage | Backend/Services/DocumentSignService.cs:118-127 | A root-certificate marker gives the install hint followed by the original text. Otherwise a password marker gives the fixed password text. Anything else passes unchanged. |
| DocumentSign.RootErrorWinsOverPassword | Backend/Services/DocumentSignService.cs:120-127 | With both markers present, the root-certificate explanation wins and still contains the provider's text. |
| DocumentSign.ReadCertificateInfo | Backend/Services/DocumentSignService.cs:308-318 | The info exists exactly when all five property reads succeed, each field being its property; the first read that throws decides the error. |
| DocumentSign.GetCertificateInfo | Backend/Services/DocumentSignService.cs:100-131 | Succeeds exactly when load, export and the five reads succeed, and then gives the five properties read. Every failure (load, export or a property read) is rethrown as an invalid-operation error carrying the mapped message of the exception raised. The provider keeps the loaded keystore. |
| Verification.PrimaryFlags | Backend/Services/DocumentSignService.cs:195-205 | The primary set is base64 in, PEM out, CMS, plus detached data exactly in detached mode, and nothing else. |
| Verification.TryAlternatives | Backend/Services/DocumentSignService.cs:238-261 | The first alternative, in order, that the provider accepts, every earlier one having failed; exhausted exactly when all remaining alternatives fail. |
| Verification.ClassifyVerifyError | Backend/Services/DocumentSignService.cs:272-286 | The message is chosen by the first marker in a fixed precedence: root certificate, then "0x1f"/"signature", then "UNKNOWN_CMS_FORMAT". Otherwise it is the provider's text. |
| Verification.RunVerification | Backend/Services/DocumentSignService.cs:195-294 | Between one and four calls are made: the primary set, then a prefix of the alternatives. Fallback starts exactly for an invalid-operation error with a fallback marker. Success means the last call succeeded, with the alternative message iff a fallback ran. A failure reports the classified primary error. |
| Verification.DocumentBytes | Backend/Services/DocumentSignService.cs:188-190 | A blank document gives no bytes; otherwise the bytes are its decoding, and undecodable text is a format error. |
| Verification.PrepareKeyStore | Backend/Services/DocumentSignService.cs:156-161 | A keystore is loaded only when keystore and password are both non-blank, with storage type PKCS12 when none is given. |
| Verification.VerifyCmsSignature | Backend/Services/DocumentSignService.cs:142-306 | Never throws. A null signature or a failed load reports the raw exception text with no provider call. A bad document reports the classified format error. A present signature, a successful keystore step and a decodable document always run the verification of the armour-stripped text. At most four calls are made, and failures carry no verification info. |
| Verification.DetachedIffDocument | Backend/Services/DocumentSignService.cs:188-205 | The primary call asks for detached data exactly when the document is non-blank and decodes to at least one byte. |
| Verification.FallbackNeverDetached | Backend/Services/DocumentSignService.cs:226-236 | No alternative call asks for detached data, even after a detached primary call. |
| Verification.ExhaustedFallbackTriesAll | Backend/Services/DocumentSignService.cs:238-265 | A failure after the fallback started means all three alternatives were tried in order. In attached mode the last repeats the primary flags; in detached mode it does not. |
| Verification.AttachedThirdAlternativeNeverSucceeds | Backend/Services/DocumentSignService.cs:195-236 | In attached mode, the third alternative can never be the one that succeeds, because it repeats the failed primary call (for a provider that answers the same call the same way). |
| Verification.FallbackStopsAtFirstSuccess | Backend/Services/DocumentSignService.cs:238-254 | After a marked primary failure, the first alternative the provider accepts ends the run with the alternative-method message, and no later one is tried. |
| Verification.NoFallbackWithoutMarker | Backend/Services/DocumentSignService.cs:221 | A primary failure without a fallback marker makes exactly one call and reports the classified error. |
| Verification.ClassificationPrecedence | Backend/Services/DocumentSignService.cs:272-286 | A corollary of ClassifyVerifyError's contract, spelled out for the case the test names: a message with both a signature and an unknown-format marker reports the root hint if it also has a root marker, and the invalid-signature text otherwise. |
| Verification.RootErrorTextDiffers | Backend/Services/DocumentSignService.cs:273-276 | For a root-certificate error, verification reports only the install hint, while certificate inspection appends the provider's text to the same hint. |
| Verification.CarriageReturnAsymmetry | Backend/Services/DocumentSignService.cs:170-181 | For CRLF armour, the verify-side extraction keeps each line's carriage return, while the co-signing cleaner removes it. |
| Common.CreateRequest | Frontend/src/services/common.js:4-9 | Method and arguments pass through. An omitted module is the CMS module and an omitted language is English, while an explicit null is sent as null. |
| Common.OmittedMeansDefault | Frontend/src/services/common.js:4-9 | Omitting module and language gives the same request as passing the defaults, and passing null for the module does not. |
| Common.NormalizePath | Frontend/src/services/common.js:11 | Same length as the input, every '/' becomes '\', every other character stays, no '/' remains, and a missing value gives the empty string. |
| Common.NormalizePathIdempotent | Frontend/src/services/common.js:11 | Normalising twice is normalising once. |
| Common.GetDirPath | Frontend/src/services/common.js:13-17 | The result is a prefix that ends right before the last separator of either kind. It is empty without a separator and strictly shorter than a non-empty path. |
| Common.GetFileName | Frontend/src/services/common.js:19-23 | The result is the suffix after the last backslash, with no backslash, or the whole path when there is none; '/' is not a separator. |
| Common.DirAndFileReassemble | Frontend/src/services/common.js:13-23 | For a path with a backslash and no '/', directory + "\" + file name is the path. |
| Common.NormalizedPathReassembles | Frontend/src/services/common.js:11-23 | After normalisation, every path with a separator of either kind reassembles from its directory and file name. |
| Common.ForwardSlashAsymmetry | Frontend/src/services/common.js:13-23 | For a path with '/' and no backslash, the file name is the whole path while the directory is shorter, so the two do not reassemble. |
| Common.FirstTruthy | Frontend/src/services/common.js:26-36 | The result is empty exactly when no candidate is a non-empty string; otherwise it is the first such candidate. |
| Common.ExtractFileInfo | Frontend/src/services/common.js:25-49 | The full path and file name are the first non-empty of their fields. The directory is the first non-empty directory field, else derived from a non-empty full path, else empty. A missing result gives three empty strings. |
| Common.DerivedDirectoryIsPrefix | Frontend/src/services/common.js:37-42 | A derived directory is a prefix of the chosen full path, strictly shorter when the path is non-empty. |
| Common.FullPathPrecedence | Frontend/src/services/common.js:26-31 | fullPath shadows filePath, which shadows path. |

## Left out

- Logging (`ILogger`) is not modelled; logged warnings appear as `Warning` values only where the code logs a warning for a branch it takes (certificate enumeration, signer count).
- NKalkan native calls (`LoadKeyStoreFromBase64`, `SignData`, `VerifyData`, `ExportCertificateFromStore`, `GetCertificateProperty`) are oracles; `SetTSAUrl` in the constructor and the timestamp service it names are not modelled.
- Kalkan.LoadKeyStore: that a failed load leaves the previously loaded keystore in place is an assumption about the native library, which is not part of this model.
- BouncyCastle CMS parsing, generation and DER encoding are the `Codec` oracle and a plain record; no ASN.1 or cryptography is modelled, and the `GetCertificates`/`EnumerateMatches` store is reduced to "no store", "these certificates" or "enumeration throws".
- `null` arguments are modelled only where the code handles them (the signature and the optional strings of `VerifyCmsSignature`, and JavaScript `null`/`undefined`, which `createRequest` distinguishes and the `||` tests do not); a null batch request or a null existing CMS text throws `NullReferenceException`, a null provider handle or null original data throws an exception of a type the tests leave open, and a null keystore or password in `GetCertificateInfo` surfaces as the wrapping `InvalidOperationException`; none of these can be expressed, because model strings and records are never null.
- .NET exception texts other than the one `FormatException` text and the null-reference text are not reproduced; provider messages are arbitrary strings.
- DocumentSign.ParseStorageType: `ToUpperInvariant` is modelled as ASCII upper-casing; no non-ASCII character upper-cases to a letter of "KAZTOKEN", so the selected storage is the same.
- The co-signing code has no check for empty content; empty content is signed like any other.
- Verification.AttachedThirdAlternativeNeverSucceeds: holds because the provider's `verify` is a function, answering the same call the same way; a native `VerifyData` whose answer depends on the clock or on revocation lookups could accept a repeated call it first refused.
- The shared mutable `KalkanApi` handle and its thread-safety are not modelled; the keystore state is passed explicitly.
- `sendWs` (common.js:51-58) is WebSocket I/O and is not modelled; `UTIL_MODULE` is only declared.
- `VerifyCmsResponse.SignerCertificate` is never set by the modelled code and is left out of the response record.
- JavaScript falsy values other than `null`, `undefined` and `''` (numbers, `false`) are not modelled: the helpers are only ever given strings.
