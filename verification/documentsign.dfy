/** The signing side of the document service: storage-type parsing, batch
    signing with per-document failure isolation, and certificate inspection with
    its error-message mapping. The NKalkan handle is the `Provider` oracle and
    the keystore it holds is threaded through explicitly. */
module DocumentSign {
  import opened Optional
  import opened Text
  import opened Base64
  import opened Kalkan

  // ---------------------------------------------------------------------------
  // Storage type
  // ---------------------------------------------------------------------------

  /** `c` is the upper-case letter or digit `u`, or (for a letter) its lower-case form. */
  predicate SameLetterIgnoringCase(c: char, u: char) {
    c == u || ('A' <= u <= 'Z' && c as int == u as int + 32)
  }

  /** Case-insensitive equality with an upper-case ASCII word, character by character. */
  predicate EqualsIgnoringCase(s: string, word: string) {
    |s| == |word| && forall i :: 0 <= i < |s| ==> SameLetterIgnoringCase(s[i], word[i])
  }

  const KazTokenName: string := "KAZTOKEN"

  /** `ParseStorageType`: total; "KAZTOKEN" in any letter case selects the token,
      every other text (including "PKCS12") selects PKCS12. */
  function ParseStorageType(storageType: string): (r: StorageType)
    ensures r == KazToken <==> EqualsIgnoringCase(storageType, KazTokenName)
  {
    var upper := ToUpperAscii(storageType);
    UpperIsKazToken(storageType);
    if upper == "PKCS12" then PKCS12
    else if upper == "KAZTOKEN" then KazToken
    else PKCS12
  }

  /** One character: upper-casing gives the upper-case letter or digit `u`
      exactly when the character is `u` ignoring case. */
  lemma UpperChar(c: char, u: char)
    requires 'A' <= u <= 'Z' || '0' <= u <= '9'
    ensures (if 'a' <= c <= 'z' then (c as int - 32) as char else c) == u <==> SameLetterIgnoringCase(c, u)
  {
  }

  /** Upper-casing yields an upper-case word exactly when the text equals it
      ignoring case. */
  lemma UpperEqualsWord(s: string, word: string)
    requires forall i :: 0 <= i < |word| ==> 'A' <= word[i] <= 'Z' || '0' <= word[i] <= '9'
    ensures ToUpperAscii(s) == word <==> EqualsIgnoringCase(s, word)
  {
    var u := ToUpperAscii(s);
    if |s| == |word| {
      forall i | 0 <= i < |s| ensures u[i] == word[i] <==> SameLetterIgnoringCase(s[i], word[i]) {
        UpperChar(s[i], word[i]);
      }
      if EqualsIgnoringCase(s, word) {
        assert forall i :: 0 <= i < |s| ==> u[i] == word[i];
      }
    }
  }

  lemma UpperIsKazToken(s: string)
    ensures ToUpperAscii(s) == "KAZTOKEN" <==> EqualsIgnoringCase(s, KazTokenName)
  {
    var w := KazTokenName;
    assert w == "KAZTOKEN";
    assert forall i :: 0 <= i < |w| ==> 'A' <= w[i] <= 'Z';
    UpperEqualsWord(s, w);
  }

  /** Upper-casing the text first changes nothing: the storage type is
      decided by the upper-case form alone. */
  lemma ParseStorageTypeIgnoresCase(s: string)
    ensures ParseStorageType(ToUpperAscii(s)) == ParseStorageType(s)
  {
    var u := ToUpperAscii(s);
    assert ToUpperAscii(u) == u;
  }

  // ---------------------------------------------------------------------------
  // Batch signing
  // ---------------------------------------------------------------------------

  datatype DocumentToSign = DocumentToSign(fileName: string, documentBase64: string)

  datatype BatchSignRequest = BatchSignRequest(
    documents: seq<DocumentToSign>,
    keyStoreBase64: string,
    password: string,
    storageType: string)

  datatype DocumentSignResult = DocumentSignResult(
    fileName: string,
    signatureBase64: Option<string>,
    success: bool,
    errorMessage: Option<string>)

  datatype BatchSignResponse = BatchSignResponse(
    results: seq<DocumentSignResult>,
    totalDocuments: nat,
    successCount: nat,
    failedCount: nat,
    message: string)

  /** The formats the batch signer hands to `SignData`. */
  const BatchSignRequestKind: SignRequest :=
    CmsSign({PemFormat, Base64Format, DerFormat}, {PemFormat, Base64Format})

  function Failure(fileName: string, message: string): DocumentSignResult {
    DocumentSignResult(fileName, None, false, Some(message))
  }

  /** One document of a batch: decode it, sign it; any exception becomes a
      failed record for this document only. */
  function SignOne(p: Provider, ks: KeyStoreState, doc: DocumentToSign): (r: DocumentSignResult)
    ensures r.fileName == doc.fileName
    ensures r.success <==> r.signatureBase64.Some?
    ensures r.success <==> r.errorMessage.None?
    ensures r.success <==>
      Decode(doc.documentBase64).Some? && p.sign(ks, Decode(doc.documentBase64).value, BatchSignRequestKind).Ok?
    ensures r.success ==> Some(p.sign(ks, Decode(doc.documentBase64).value, BatchSignRequestKind).value) == r.signatureBase64
    ensures Decode(doc.documentBase64).None? ==> r.errorMessage == Some(BadBase64Message)
    ensures Decode(doc.documentBase64).Some? && p.sign(ks, Decode(doc.documentBase64).value, BatchSignRequestKind).Threw? ==>
      r.errorMessage == Some(p.sign(ks, Decode(doc.documentBase64).value, BatchSignRequestKind).error.message)
  {
    match Decode(doc.documentBase64)
    case None => Failure(doc.fileName, BadBase64Message)
    case Some(bytes) =>
      match p.sign(ks, bytes, BatchSignRequestKind)
      case Ok(signature) => DocumentSignResult(doc.fileName, Some(signature), true, None)
      case Threw(e) => Failure(doc.fileName, e.message)
  }

  /** The number of successful records. */
  function CountSuccesses(results: seq<DocumentSignResult>): (n: nat)
    ensures n <= |results|
  {
    if |results| == 0 then 0
    else CountSuccesses(results[..|results| - 1]) + (if results[|results| - 1].success then 1 else 0)
  }

  function FileNames(docs: seq<DocumentToSign>): seq<string>
  {
    seq(|docs|, i requires 0 <= i < |docs| => docs[i].fileName)
  }

  function ResultNames(results: seq<DocumentSignResult>): (r: seq<string>)
    ensures |r| == |results|
    ensures forall i :: 0 <= i < |results| ==> r[i] == results[i].fileName
  {
    if |results| == 0 then [] else ResultNames(results[..|results| - 1]) + [results[|results| - 1].fileName]
  }

  predicate Distinct(names: seq<string>) {
    forall i, j :: 0 <= i < j < |names| ==> names[i] != names[j]
  }

  function CompletedMessage(successes: nat, failures: nat): string {
    "Batch signing completed. Success: " + NatToString(successes) + ", Failed: " + NatToString(failures)
  }

  function BatchErrorMessage(error: string): string {
    "Batch signing error: " + error
  }

  /** The loop over the documents once the keystore is loaded. */
  method SignEach(p: Provider, ks: KeyStoreState, docs: seq<DocumentToSign>)
    returns (results: seq<DocumentSignResult>, successes: nat, failures: nat)
    ensures |results| == |docs|
    ensures forall i :: 0 <= i < |docs| ==> results[i] == SignOne(p, ks, docs[i])
    ensures successes == CountSuccesses(results)
    ensures successes + failures == |docs|
  {
    results, successes, failures := [], 0, 0;
    for i := 0 to |docs|
      invariant |results| == i
      invariant forall j :: 0 <= j < i ==> results[j] == SignOne(p, ks, docs[j])
      invariant successes == CountSuccesses(results)
      invariant successes + failures == i
    {
      var result := SignOne(p, ks, docs[i]);
      assert (results + [result])[..i] == results;
      if result.success {
        successes := successes + 1;
      } else {
        failures := failures + 1;
      }
      results := results + [result];
    }
  }

  /** The names in first-occurrence order, each once: the file names the
      recovery loop records. */
  function Dedup(names: seq<string>): (r: seq<string>)
    ensures |r| <= |names|
  {
    if |names| == 0 then []
    else
      var prefix := Dedup(names[..|names| - 1]);
      var last := names[|names| - 1];
      if last in prefix then prefix else prefix + [last]
  }

  /** Deduplication loses no name and invents none. */
  lemma {:induction false} DedupMembers(names: seq<string>, x: string)
    ensures x in Dedup(names) <==> x in names
    decreases |names|
  {
    if |names| > 0 {
      var init := names[..|names| - 1];
      DedupMembers(init, x);
      assert names == init + [names[|names| - 1]];
    }
  }

  /** Deduplication leaves no name twice. */
  lemma {:induction false} DedupDistinct(names: seq<string>)
    ensures Distinct(Dedup(names))
    decreases |names|
  {
    if |names| > 0 {
      var init := names[..|names| - 1];
      DedupDistinct(init);
      var last := names[|names| - 1];
      if last !in Dedup(init) {
        NewNameKeepsDistinct(Dedup(init), last);
      }
    }
  }

  /** Deduplication keeps every entry exactly when there were no duplicates. */
  lemma {:induction false} DedupKeepsAll(names: seq<string>)
    ensures |Dedup(names)| == |names| <==> Distinct(names)
    decreases |names|
  {
    if |names| > 0 {
      var init := names[..|names| - 1];
      var last := names[|names| - 1];
      DedupKeepsAll(init);
      DedupMembers(init, last);
      if Distinct(init) {
        NewNameKeepsDistinct(init, last);
        assert names == init + [last];
      } else {
        var a, b :| 0 <= a < b < |init| && init[a] == init[b];
        assert names[a] == names[b];
      }
    }
  }

  lemma DedupSnoc(names: seq<string>, x: string)
    ensures Dedup(names + [x]) == if x in Dedup(names) then Dedup(names) else Dedup(names) + [x]
  {
    assert (names + [x])[..|names|] == names;
  }

  lemma ResultNamesSnoc(results: seq<DocumentSignResult>, r: DocumentSignResult)
    ensures ResultNames(results + [r]) == ResultNames(results) + [r.fileName]
  {
    assert (results + [r])[..|results|] == results;
  }

  lemma FileNamesStep(docs: seq<DocumentToSign>, i: nat)
    requires i < |docs|
    ensures FileNames(docs[..i + 1]) == FileNames(docs[..i]) + [docs[i].fileName]
  {
    assert docs[..i + 1][..i] == docs[..i];
  }

  /** Every record is a failure carrying `error`. */
  predicate AllFailedWith(results: seq<DocumentSignResult>, error: string) {
    forall j :: 0 <= j < |results| ==> results[j] == Failure(results[j].fileName, error)
  }

  /** One step of the recovery loop keeps the records equal to the
      deduplicated names seen so far, all failed with the load error. */
  lemma FailStep(docs: seq<DocumentToSign>, i: nat, results: seq<DocumentSignResult>, error: string)
    requires i < |docs|
    requires ResultNames(results) == Dedup(FileNames(docs[..i])) && AllFailedWith(results, error)
    ensures var name := docs[i].fileName;
      var next := if name in ResultNames(results) then results else results + [Failure(name, error)];
      ResultNames(next) == Dedup(FileNames(docs[..i + 1])) && AllFailedWith(next, error)
  {
    var name := docs[i].fileName;
    var before := FileNames(docs[..i]);
    FileNamesStep(docs, i);
    DedupSnoc(before, name);
    if name !in ResultNames(results) {
      ResultNamesSnoc(results, Failure(name, error));
    }
  }

  /** Some record already carries the file name: the negation of the
      source's `Results.All(r => r.FileName != doc.FileName)`. */
  predicate Recorded(results: seq<DocumentSignResult>, name: string) {
    exists j :: 0 <= j < |results| && results[j].fileName == name
  }

  lemma RecordedIsListed(results: seq<DocumentSignResult>, name: string)
    ensures Recorded(results, name) <==> name in ResultNames(results)
  {
    if name in ResultNames(results) {
      var j :| 0 <= j < |results| && ResultNames(results)[j] == name;
      assert results[j].fileName == name;
    }
  }

  /** The recovery loop after a failed keystore load, document by document:
      a failed record with the load error for every file name not yet
      recorded. */
  function FailAll(docs: seq<DocumentToSign>, error: string): (r: seq<DocumentSignResult>)
    ensures ResultNames(r) == Dedup(FileNames(docs))
    ensures AllFailedWith(r, error)
    decreases |docs|
  {
    if |docs| == 0 then []
    else
      var i := |docs| - 1;
      var earlier := FailAll(docs[..i], error);
      var name := docs[i].fileName;
      assert docs[..i] == docs[..|docs|][..i];
      FailStep(docs, i, earlier, error);
      RecordedIsListed(earlier, name);
      assert docs[..i + 1] == docs;
      if Recorded(earlier, name) then earlier else earlier + [Failure(name, error)]
  }

  /** Appending a name not yet present keeps a list of names duplicate-free,
      and appending a present one does not. */
  lemma NewNameKeepsDistinct(names: seq<string>, name: string)
    requires Distinct(names)
    ensures Distinct(names + [name]) <==> name !in names
  {
    var ext := names + [name];
    if name in names {
      var k :| 0 <= k < |names| && names[k] == name;
      assert ext[k] == ext[|names|];
    }
  }

  /** `SignDocumentsBatch`. When the keystore loads, every document gets
      exactly its own record, in order, and the counts add up; when it does
      not, nothing succeeds and every file name gets one failed record with the
      load error. */
  method SignDocumentsBatch(p: Provider, ks: KeyStoreState, request: BatchSignRequest)
    returns (response: BatchSignResponse, keyStore: KeyStoreState)
    ensures var loaded := LoadKeyStore(p, ks, ParseStorageType(request.storageType), request.keyStoreBase64, request.password);
      keyStore == loaded.1
    ensures response.totalDocuments == |request.documents|
    ensures var loadError := p.load(ParseStorageType(request.storageType), request.keyStoreBase64, request.password);
      loadError.None? ==>
        && |response.results| == |request.documents|
        && (forall i :: 0 <= i < |request.documents| ==>
              response.results[i] == SignOne(p, keyStore, request.documents[i]))
        && response.successCount == CountSuccesses(response.results)
        && response.successCount + response.failedCount == response.totalDocuments
        && response.message == CompletedMessage(response.successCount, response.failedCount)
    ensures var loadError := p.load(ParseStorageType(request.storageType), request.keyStoreBase64, request.password);
      loadError.Some? ==>
        && response.successCount == 0
        && response.failedCount == |response.results|
        && response.message == BatchErrorMessage(loadError.value.message)
        && AllFailedWith(response.results, loadError.value.message)
        && ResultNames(response.results) == Dedup(FileNames(request.documents))
  {
    var storage := ParseStorageType(request.storageType);
    var loaded := LoadKeyStore(p, ks, storage, request.keyStoreBase64, request.password);
    keyStore := loaded.1;
    var total := |request.documents|;
    if loaded.0.None? {
      var results, successes, failures := SignEach(p, keyStore, request.documents);
      response := BatchSignResponse(results, total, successes, failures, CompletedMessage(successes, failures));
    } else {
      var error := loaded.0.value.message;
      var results := FailAll(request.documents, error);
      response := BatchSignResponse(results, total, 0, |results|, BatchErrorMessage(error));
    }
  }

  // ---------------------------------------------------------------------------
  // Certificate information
  // ---------------------------------------------------------------------------

  datatype CertificateInfo = CertificateInfo(
    subject: string,
    issuer: string,
    serialNumber: string,
    validFrom: string,
    validTo: string)

  const RootCertificatesMissing: string :=
    "Root/intermediate certificates not installed. Please install Kazakhstan PKI root certificates from https://pki.gov.kz/"
  const InvalidPasswordMessage: string := "Invalid password or corrupted keystore file."

  /** The markers NKalkan uses for a missing root or intermediate certificate. */
  predicate IsRootCertificateError(message: string) {
    Contains(message, "0x8f00040") || Contains(message, "not found root or intermediate certificate")
  }

  predicate IsPasswordError(message: string) {
    Contains(message, "password") || Contains(message, "0x03")
  }

  /** The message `GetCertificateInfo` rethrows: a missing root certificate is
      explained and keeps the original text after " Error: ", a password
      problem gets a fixed text, anything else passes unchanged. */
  function CertificateErrorMessage(message: string): (r: string)
    ensures IsRootCertificateError(message) ==>
      |r| > |RootCertificatesMissing| + |message| &&
      r[..|RootCertificatesMissing|] == RootCertificatesMissing && r[|r| - |message|..] == message
    ensures !IsRootCertificateError(message) && IsPasswordError(message) ==> r == InvalidPasswordMessage
    ensures !IsRootCertificateError(message) && !IsPasswordError(message) ==> r == message
    ensures |r| >= |message| || r == InvalidPasswordMessage
  {
    if IsRootCertificateError(message) then RootCertificatesMissing + ". Error: " + message
    else if IsPasswordError(message) then InvalidPasswordMessage
    else message
  }

  /** The five `GetCertificateProperty` calls, in the order the source makes
      them; the first that throws decides the outcome. */
  function ReadCertificateInfo(p: Provider, ks: KeyStoreState, certificate: string): (r: Outcome<CertificateInfo>)
    ensures r.Ok? <==>
      && p.certificateProperty(ks, certificate, SubjectCommonName).Ok?
      && p.certificateProperty(ks, certificate, IssuerCommonName).Ok?
      && p.certificateProperty(ks, certificate, SubjectSerialNumber).Ok?
      && p.certificateProperty(ks, certificate, NotBefore).Ok?
      && p.certificateProperty(ks, certificate, NotAfter).Ok?
    ensures r.Ok? ==>
      && Ok(r.value.subject) == p.certificateProperty(ks, certificate, SubjectCommonName)
      && Ok(r.value.issuer) == p.certificateProperty(ks, certificate, IssuerCommonName)
      && Ok(r.value.serialNumber) == p.certificateProperty(ks, certificate, SubjectSerialNumber)
      && Ok(r.value.validFrom) == p.certificateProperty(ks, certificate, NotBefore)
      && Ok(r.value.validTo) == p.certificateProperty(ks, certificate, NotAfter)
    ensures var read := (k: CertificateProperty) => p.certificateProperty(ks, certificate, k);
      && (read(SubjectCommonName).Threw? ==> r == Threw(read(SubjectCommonName).error))
      && (read(SubjectCommonName).Ok? && read(IssuerCommonName).Threw? ==> r == Threw(read(IssuerCommonName).error))
      && (read(SubjectCommonName).Ok? && read(IssuerCommonName).Ok? && read(SubjectSerialNumber).Threw? ==>
            r == Threw(read(SubjectSerialNumber).error))
      && ((read(SubjectCommonName).Ok? && read(IssuerCommonName).Ok? && read(SubjectSerialNumber).Ok?
            && read(NotBefore).Threw?) ==> r == Threw(read(NotBefore).error))
      && ((read(SubjectCommonName).Ok? && read(IssuerCommonName).Ok? && read(SubjectSerialNumber).Ok?
            && read(NotBefore).Ok? && read(NotAfter).Threw?) ==> r == Threw(read(NotAfter).error))
  {
    match p.certificateProperty(ks, certificate, SubjectCommonName)
    case Threw(e) => Threw(e)
    case Ok(subject) =>
      match p.certificateProperty(ks, certificate, IssuerCommonName)
      case Threw(e) => Threw(e)
      case Ok(issuer) =>
        match p.certificateProperty(ks, certificate, SubjectSerialNumber)
        case Threw(e) => Threw(e)
        case Ok(serial) =>
          match p.certificateProperty(ks, certificate, NotBefore)
          case Threw(e) => Threw(e)
          case Ok(from) =>
            match p.certificateProperty(ks, certificate, NotAfter)
            case Threw(e) => Threw(e)
            case Ok(to) => Ok(CertificateInfo(subject, issuer, serial, from, to))
  }

  /** `GetCertificateInfo`: load, export, read the properties; any exception
      is rethrown as an invalid-operation error with the mapped message. */
  function GetCertificateInfo(p: Provider, ks: KeyStoreState, keyStoreBase64: string, password: string, storageType: string)
    : (r: (Outcome<CertificateInfo>, KeyStoreState))
    ensures var storage := ParseStorageType(storageType);
      r.1 == LoadKeyStore(p, ks, storage, keyStoreBase64, password).1
    ensures r.0.Threw? ==> r.0.error.kind == InvalidOperation
    ensures var storage := ParseStorageType(storageType);
      p.load(storage, keyStoreBase64, password).Some? ==>
        r.0 == Threw(Exception(InvalidOperation, CertificateErrorMessage(p.load(storage, keyStoreBase64, password).value.message)))
    ensures var storage := ParseStorageType(storageType);
      r.0.Ok? <==>
        && p.load(storage, keyStoreBase64, password).None?
        && p.exportCertificate(Loaded(storage, keyStoreBase64)).Ok?
        && ReadCertificateInfo(p, Loaded(storage, keyStoreBase64), p.exportCertificate(Loaded(storage, keyStoreBase64)).value).Ok?
    ensures var storage := ParseStorageType(storageType);
      var exported := p.exportCertificate(Loaded(storage, keyStoreBase64));
      p.load(storage, keyStoreBase64, password).None? && exported.Threw? ==>
        r.0 == Threw(Exception(InvalidOperation, CertificateErrorMessage(exported.error.message)))
    ensures var storage := ParseStorageType(storageType);
      var exported := p.exportCertificate(Loaded(storage, keyStoreBase64));
      p.load(storage, keyStoreBase64, password).None? && exported.Ok? ==>
        var info := ReadCertificateInfo(p, Loaded(storage, keyStoreBase64), exported.value);
        && (info.Threw? ==> r.0 == Threw(Exception(InvalidOperation, CertificateErrorMessage(info.error.message))))
        && (info.Ok? ==> r.0 == info)
  {
    var storage := ParseStorageType(storageType);
    var loaded := LoadKeyStore(p, ks, storage, keyStoreBase64, password);
    var outcome :=
      if loaded.0.Some? then Threw(loaded.0.value)
      else match p.exportCertificate(loaded.1)
        case Threw(e) => Threw(e)
        case Ok(certificate) => ReadCertificateInfo(p, loaded.1, certificate);
    match outcome
    case Ok(info) => (Ok(info), loaded.1)
    case Threw(e) => (Threw(Exception(InvalidOperation, CertificateErrorMessage(e.message))), loaded.1)
  }

  /** A missing root certificate takes precedence over a password marker, and
      its explanation still carries the provider's text. */
  lemma RootErrorWinsOverPassword(message: string)
    requires IsRootCertificateError(message) && IsPasswordError(message)
    ensures CertificateErrorMessage(message) != InvalidPasswordMessage
    ensures Contains(CertificateErrorMessage(message), message)
  {
    var r := CertificateErrorMessage(message);
    assert |r| > |InvalidPasswordMessage|;
    ContainsAt(r, message, |r| - |message|);
  }
}
