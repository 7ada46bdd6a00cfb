/** `VerifyCmsSignature`: optional keystore loading, PEM extraction, the choice
    between attached and detached verification, the fixed fallback over three
    alternative flag sets, and the mapping of failures to response messages.
    The provider's verification call is the `Provider.verify` oracle; every
    call made is recorded so that the retry policy can be stated. */
module Verification {
  import opened Optional
  import opened Text
  import opened Base64
  import opened Armor
  import opened Kalkan
  import opened DocumentSign
  import CoSigning

  datatype VerifyCmsResponse = VerifyCmsResponse(
    success: bool,
    message: string,
    verificationInfo: Option<string>,
    resultData: Option<string>)

  /** A verification run: the response, the flag sets passed to the provider
      in call order, and the keystore the provider holds afterwards. */
  datatype VerifyRun = VerifyRun(response: VerifyCmsResponse, calls: seq<set<SignFlag>>, keyStore: KeyStoreState)

  /** The outcome of the fallback loop. */
  datatype Fallback = Found(index: nat, verified: Verified) | Exhausted

  const VerifiedMessage: string := "Signature verified successfully"
  const AlternativeMessage: string := "Signature verified successfully (using alternative method)"
  const NullReferenceMessage: string := "Object reference not set to an instance of an object."
  /** What reading a null signature throws; the outer handler reports its text. */
  const NullSignatureError: Exception := Exception(NullReference, NullReferenceMessage)
  const InvalidSignatureMessage: string := "Invalid signature or signature verification failed."
  const UnsupportedFormatMessage: string :=
    "Unsupported CMS signature format. The signature format is not recognized by NKalkan library. "
    + "This may indicate that the signature was created with a different tool or format that is incompatible with NKalkan. "
    + "Please verify the signature was created using a compatible signing method."

  /** The primary flags: base64 input, PEM output, CMS, and detached data
      exactly when there are document bytes. */
  function PrimaryFlags(detached: bool): (r: set<SignFlag>)
    ensures {InputBase64, OutputPem, SignCms} <= r
    ensures DetachedData in r <==> detached
    ensures |r - {InputBase64, OutputPem, SignCms, DetachedData}| == 0
  {
    if detached then {InputBase64, OutputPem, SignCms, DetachedData} else {InputBase64, OutputPem, SignCms}
  }

  /** The alternative flag sets, tried in this order. */
  const FallbackFlagSets: seq<set<SignFlag>> := [
    {SignCms, InputBase64, OutputPem, DoNotCheckCertificateTime},
    {SignCms, InputDer, OutputDer},
    {SignCms, InputBase64, OutputPem}
  ]

  /** The provider errors that start the fallback. */
  predicate StartsFallback(e: Exception) {
    e.kind == InvalidOperation && (Contains(e.message, "UNKNOWN_CMS_FORMAT") || Contains(e.message, "encode error"))
  }

  /** The fallback loop from alternative `i` on: the first alternative the
      provider accepts, or none. */
  function TryAlternatives(p: Provider, ks: KeyStoreState, bytes: seq<byte>, text: string, i: nat): (r: Fallback)
    requires i <= |FallbackFlagSets|
    ensures r.Found? ==> i <= r.index < |FallbackFlagSets|
    ensures r.Found? ==> p.verify(ks, bytes, text, FallbackFlagSets[r.index]) == Ok(r.verified)
    ensures r.Found? ==> forall j :: i <= j < r.index ==> p.verify(ks, bytes, text, FallbackFlagSets[j]).Threw?
    ensures r.Exhausted? <==> forall j :: i <= j < |FallbackFlagSets| ==> p.verify(ks, bytes, text, FallbackFlagSets[j]).Threw?
    decreases |FallbackFlagSets| - i
  {
    if i == |FallbackFlagSets| then Exhausted
    else match p.verify(ks, bytes, text, FallbackFlagSets[i])
      case Ok(v) => Found(i, v)
      case Threw(_) => TryAlternatives(p, ks, bytes, text, i + 1)
  }

  /** The message reported for a failure, by the first marker found: a
      missing root certificate, then a signature error, then an unknown
      format; otherwise the provider's own text. */
  function ClassifyVerifyError(message: string): (r: string)
    ensures IsRootCertificateError(message) ==> r == RootCertificatesMissing
    ensures !IsRootCertificateError(message) && (Contains(message, "0x1f") || Contains(message, "signature")) ==>
      r == InvalidSignatureMessage
    ensures (!IsRootCertificateError(message) && !Contains(message, "0x1f") && !Contains(message, "signature")
      && Contains(message, "UNKNOWN_CMS_FORMAT")) ==> r == UnsupportedFormatMessage
    ensures (!IsRootCertificateError(message) && !Contains(message, "0x1f") && !Contains(message, "signature")
      && !Contains(message, "UNKNOWN_CMS_FORMAT")) ==> r == message
  {
    if IsRootCertificateError(message) then RootCertificatesMissing
    else if Contains(message, "0x1f") || Contains(message, "signature") then InvalidSignatureMessage
    else if Contains(message, "UNKNOWN_CMS_FORMAT") then UnsupportedFormatMessage
    else message
  }

  function Failed(message: string): VerifyCmsResponse {
    VerifyCmsResponse(false, message, None, None)
  }

  /** The verification proper (the inner `try`): the primary call, the
      fallback when its error asks for one, and the mapped failure. Returns
      the response and the flag sets used. */
  function RunVerification(p: Provider, ks: KeyStoreState, bytes: seq<byte>, text: string)
    : (r: (VerifyCmsResponse, seq<set<SignFlag>>))
    ensures 1 <= |r.1| <= 1 + |FallbackFlagSets|
    ensures r.1[0] == PrimaryFlags(|bytes| > 0)
    ensures r.1[1..] == FallbackFlagSets[..|r.1| - 1]
    ensures forall j :: 0 <= j < |r.1| - 1 ==> p.verify(ks, bytes, text, r.1[j]).Threw?
    ensures |r.1| > 1 <==> p.verify(ks, bytes, text, r.1[0]).Threw? && StartsFallback(p.verify(ks, bytes, text, r.1[0]).error)
    ensures r.0.success <==> p.verify(ks, bytes, text, r.1[|r.1| - 1]).Ok?
    ensures r.0.success ==>
      && r.0.verificationInfo == Some(p.verify(ks, bytes, text, r.1[|r.1| - 1]).value.info)
      && r.0.resultData == p.verify(ks, bytes, text, r.1[|r.1| - 1]).value.data
      && (r.0.message == AlternativeMessage <==> |r.1| > 1)
      && (r.0.message == VerifiedMessage <==> |r.1| == 1)
    ensures !r.0.success ==>
      r.0 == Failed(ClassifyVerifyError(p.verify(ks, bytes, text, r.1[0]).error.message))
    ensures !r.0.success && |r.1| > 1 ==> |r.1| == 1 + |FallbackFlagSets|
  {
    var flags := PrimaryFlags(|bytes| > 0);
    match p.verify(ks, bytes, text, flags)
    case Ok(v) => (VerifyCmsResponse(true, VerifiedMessage, Some(v.info), v.data), [flags])
    case Threw(e) =>
      if !StartsFallback(e) then (Failed(ClassifyVerifyError(e.message)), [flags])
      else match TryAlternatives(p, ks, bytes, text, 0)
        case Found(i, v) =>
          (VerifyCmsResponse(true, AlternativeMessage, Some(v.info), v.data), [flags] + FallbackFlagSets[..i + 1])
        case Exhausted =>
          (Failed(ClassifyVerifyError(e.message)), [flags] + FallbackFlagSets)
  }

  /** `string.IsNullOrWhiteSpace`. */
  predicate IsNullOrWhiteSpace(s: Option<string>) {
    s.None? || IsBlank(s.value)
  }

  /** The document bytes: none for a blank document, otherwise its base64
      decoding, or the decoder's error. */
  function DocumentBytes(original: Option<string>): (r: Outcome<seq<byte>>)
    ensures IsNullOrWhiteSpace(original) ==> r == Ok([])
    ensures !IsNullOrWhiteSpace(original) ==>
      (r.Ok? <==> Decode(original.value).Some?) && (r.Ok? ==> Some(r.value) == Decode(original.value))
    ensures r.Threw? ==> r.error == Exception(FormatError, BadBase64Message)
  {
    if IsNullOrWhiteSpace(original) then Ok([])
    else match Decode(original.value)
      case None => Threw(Exception(FormatError, BadBase64Message))
      case Some(bytes) => Ok(bytes)
  }

  /** Whether the call asks for a keystore to be loaded first. */
  predicate WantsKeyStore(keyStoreBase64: Option<string>, password: Option<string>) {
    !IsNullOrWhiteSpace(keyStoreBase64) && !IsNullOrWhiteSpace(password)
  }

  /** The keystore step: skipped unless both keystore and password are given;
      the storage type defaults to PKCS12. */
  function PrepareKeyStore(p: Provider, ks: KeyStoreState, keyStoreBase64: Option<string>, password: Option<string>,
                           storageType: Option<string>): (r: (Option<Exception>, KeyStoreState))
    ensures !WantsKeyStore(keyStoreBase64, password) ==> r == (None, ks)
    ensures WantsKeyStore(keyStoreBase64, password) ==>
      r == LoadKeyStore(p, ks, ParseStorageType(storageType.GetOr("PKCS12")), keyStoreBase64.value, password.value)
  {
    if WantsKeyStore(keyStoreBase64, password) then
      LoadKeyStore(p, ks, ParseStorageType(storageType.GetOr("PKCS12")), keyStoreBase64.value, password.value)
    else (None, ks)
  }

  /** `VerifyCmsSignature`. It never throws: a missing signature and a failed
      keystore load report the raw exception text; a bad document and every
      provider failure report the classified text; at most four provider
      calls are made, the primary one and then the alternatives in order. */
  function VerifyCmsSignature(p: Provider, ks: KeyStoreState, signature: Option<string>, original: Option<string>,
                              keyStoreBase64: Option<string>, password: Option<string>, storageType: Option<string>)
    : (r: VerifyRun)
    ensures signature.None? ==> r == VerifyRun(Failed(NullSignatureError.message), [], ks)
    ensures !r.response.success ==> r.response.verificationInfo.None?
    ensures |r.calls| <= 1 + |FallbackFlagSets|
    ensures |r.calls| > 0 ==> r.calls[1..] == FallbackFlagSets[..|r.calls| - 1]
    ensures signature.Some? ==> r.keyStore == PrepareKeyStore(p, ks, keyStoreBase64, password, storageType).1
    ensures signature.Some? && PrepareKeyStore(p, ks, keyStoreBase64, password, storageType).0.Some? ==>
      r.response == Failed(PrepareKeyStore(p, ks, keyStoreBase64, password, storageType).0.value.message) && r.calls == []
    ensures signature.Some? && PrepareKeyStore(p, ks, keyStoreBase64, password, storageType).0.None? ==>
      DocumentBytes(original).Threw? ==> r.response == Failed(ClassifyVerifyError(BadBase64Message)) && r.calls == []
    ensures r.response.success ==> |r.calls| > 0
    ensures (signature.Some? && PrepareKeyStore(p, ks, keyStoreBase64, password, storageType).0.None?
      && DocumentBytes(original).Ok?) ==>
        (r.response, r.calls) == RunVerification(p, r.keyStore, DocumentBytes(original).value, StripArmor(signature.value))
    ensures |r.calls| > 0 ==>
      && signature.Some?
      && PrepareKeyStore(p, ks, keyStoreBase64, password, storageType).0.None?
      && DocumentBytes(original).Ok?
      && (r.response, r.calls) == RunVerification(p, r.keyStore, DocumentBytes(original).value, StripArmor(signature.value))
  {
    if signature.None? then VerifyRun(Failed(NullSignatureError.message), [], ks)
    else
      var prepared := PrepareKeyStore(p, ks, keyStoreBase64, password, storageType);
      if prepared.0.Some? then VerifyRun(Failed(prepared.0.value.message), [], prepared.1)
      else
        var text := StripArmor(signature.value);
        match DocumentBytes(original)
        case Threw(e) => VerifyRun(Failed(ClassifyVerifyError(e.message)), [], prepared.1)
        case Ok(bytes) =>
          var run := RunVerification(p, prepared.1, bytes, text);
          VerifyRun(run.0, run.1, prepared.1)
  }

  // ---------------------------------------------------------------------------
  // Properties of the retry policy
  // ---------------------------------------------------------------------------

  /** The primary call is detached exactly when the document is given, is
      valid base64 and decodes to at least one byte. */
  lemma DetachedIffDocument(p: Provider, ks: KeyStoreState, signature: Option<string>, original: Option<string>,
                            keyStoreBase64: Option<string>, password: Option<string>, storageType: Option<string>)
    requires |VerifyCmsSignature(p, ks, signature, original, keyStoreBase64, password, storageType).calls| > 0
    ensures var r := VerifyCmsSignature(p, ks, signature, original, keyStoreBase64, password, storageType);
      DetachedData in r.calls[0] <==>
        !IsNullOrWhiteSpace(original) && Decode(original.value).Some? && |Decode(original.value).value| > 0
  {
  }

  /** No alternative flag set asks for detached data, even after a detached
      primary attempt. */
  lemma FallbackNeverDetached(p: Provider, ks: KeyStoreState, signature: Option<string>, original: Option<string>,
                              keyStoreBase64: Option<string>, password: Option<string>, storageType: Option<string>)
    ensures var r := VerifyCmsSignature(p, ks, signature, original, keyStoreBase64, password, storageType);
      forall j :: 1 <= j < |r.calls| ==> DetachedData !in r.calls[j]
  {
    var calls := VerifyCmsSignature(p, ks, signature, original, keyStoreBase64, password, storageType).calls;
    if |calls| > 0 {
      AlternativesNeverDetached(calls);
    }
  }

  /** Any call sequence that follows the primary call with a prefix of the
      alternatives asks for detached data at most in the primary call. */
  lemma AlternativesNeverDetached(calls: seq<set<SignFlag>>)
    requires 0 < |calls| <= 1 + |FallbackFlagSets|
    requires calls[1..] == FallbackFlagSets[..|calls| - 1]
    ensures forall j :: 1 <= j < |calls| ==> DetachedData !in calls[j]
  {
    forall j | 1 <= j < |calls| ensures DetachedData !in calls[j] {
      assert calls[j] == calls[1..][j - 1] == FallbackFlagSets[j - 1];
      NoAlternativeIsDetached(j - 1);
    }
  }

  /** No alternative flag set asks for detached data. */
  lemma NoAlternativeIsDetached(k: nat)
    requires k < |FallbackFlagSets|
    ensures DetachedData !in FallbackFlagSets[k]
  {
  }

  /** A failure after the fallback started means every alternative was tried;
      in attached mode the last of them repeats the primary flags. */
  lemma ExhaustedFallbackTriesAll(p: Provider, ks: KeyStoreState, bytes: seq<byte>, text: string)
    requires var r := RunVerification(p, ks, bytes, text); !r.0.success && |r.1| > 1
    ensures var r := RunVerification(p, ks, bytes, text);
      && r.1 == [PrimaryFlags(|bytes| > 0)] + FallbackFlagSets
      && (|bytes| == 0 ==> r.1[3] == r.1[0])
      && (|bytes| > 0 ==> r.1[3] != r.1[0])
  {
    var calls := RunVerification(p, ks, bytes, text).1;
    AllAlternativesTried(calls, |bytes| > 0);
  }

  /** The call sequence of an exhausted fallback, whatever the provider did. */
  lemma AllAlternativesTried(calls: seq<set<SignFlag>>, detached: bool)
    requires |calls| == 1 + |FallbackFlagSets|
    requires calls[0] == PrimaryFlags(detached)
    requires calls[1..] == FallbackFlagSets[..|calls| - 1]
    ensures calls == [PrimaryFlags(detached)] + FallbackFlagSets
    ensures !detached ==> calls[3] == calls[0]
    ensures detached ==> calls[3] != calls[0]
  {
    assert calls[1..] == FallbackFlagSets;
    assert calls == [calls[0]] + calls[1..];
    assert calls[3] == FallbackFlagSets[2];
    if detached {
      NoAlternativeIsDetached(2);
      assert DetachedData in calls[0];
    }
  }

  /** In attached mode the third alternative repeats the primary call, so a
      provider that answers the same question the same way never lets it be
      the one that succeeds. */
  lemma AttachedThirdAlternativeNeverSucceeds(p: Provider, ks: KeyStoreState, text: string)
    ensures var r := RunVerification(p, ks, [], text);
      r.0.success ==> |r.1| < 4
  {
    var r := RunVerification(p, ks, [], text);
    if |r.1| == 4 {
      assert r.1[3] == r.1[1..][2] == FallbackFlagSets[2];
      assert FallbackFlagSets[2] == PrimaryFlags(false);
    }
  }

  /** Success after the primary failure is reported as the alternative
      method, and only the first alternative that succeeds is used. */
  lemma FallbackStopsAtFirstSuccess(p: Provider, ks: KeyStoreState, bytes: seq<byte>, text: string, k: nat)
    requires k < |FallbackFlagSets|
    requires p.verify(ks, bytes, text, PrimaryFlags(|bytes| > 0)).Threw?
    requires StartsFallback(p.verify(ks, bytes, text, PrimaryFlags(|bytes| > 0)).error)
    requires forall j :: 0 <= j < k ==> p.verify(ks, bytes, text, FallbackFlagSets[j]).Threw?
    requires p.verify(ks, bytes, text, FallbackFlagSets[k]).Ok?
    ensures var r := RunVerification(p, ks, bytes, text);
      r.0.success && r.0.message == AlternativeMessage && |r.1| == k + 2
  {
    var r := RunVerification(p, ks, bytes, text);
    var f := TryAlternatives(p, ks, bytes, text, 0);
    assert f.Found? && f.index == k;
  }

  /** Errors without a fallback marker are not retried. */
  lemma NoFallbackWithoutMarker(p: Provider, ks: KeyStoreState, bytes: seq<byte>, text: string)
    requires p.verify(ks, bytes, text, PrimaryFlags(|bytes| > 0)).Threw?
    requires !StartsFallback(p.verify(ks, bytes, text, PrimaryFlags(|bytes| > 0)).error)
    ensures var r := RunVerification(p, ks, bytes, text);
      !r.0.success && |r.1| == 1
      && r.0.message == ClassifyVerifyError(p.verify(ks, bytes, text, PrimaryFlags(|bytes| > 0)).error.message)
  {
  }

  // ---------------------------------------------------------------------------
  // Error classification and PEM extraction
  // ---------------------------------------------------------------------------

  /** A corollary of `ClassifyVerifyError`'s contract: a root-certificate
      marker wins over any other marker, and a signature marker wins over the
      unknown-format marker. */
  lemma ClassificationPrecedence(message: string)
    requires Contains(message, "signature") && Contains(message, "UNKNOWN_CMS_FORMAT")
    ensures IsRootCertificateError(message) ==> ClassifyVerifyError(message) == RootCertificatesMissing
    ensures !IsRootCertificateError(message) ==> ClassifyVerifyError(message) == InvalidSignatureMessage
  {
  }

  /** The verify side, unlike the certificate-info side, drops the provider's
      text for a missing root certificate. */
  lemma RootErrorTextDiffers(message: string)
    requires IsRootCertificateError(message)
    ensures ClassifyVerifyError(message) == RootCertificatesMissing
    ensures |CertificateErrorMessage(message)| > |ClassifyVerifyError(message)|
    ensures CertificateErrorMessage(message)[..|RootCertificatesMissing|] == ClassifyVerifyError(message)
  {
  }

  /** CRLF text: the verify-side extraction keeps each line's carriage
      return, while the co-signing cleaner removes it. */
  lemma CarriageReturnAsymmetry(title: string, lines: seq<string>, trailer: string)
    requires '\n' !in title && WrappableLines(lines) && IsBlank(trailer)
    ensures var s := Wrap(title, lines, "\r") + trailer;
      && StripArmor(s) == Concat(Terminated(lines, "\r"))
      && '\r' in StripArmor(s)
      && CoSigning.CleanBase64(s) == Concat(lines)
      && '\r' !in CoSigning.CleanBase64(s)
  {
    var s := Wrap(title, lines, "\r") + trailer;
    StripArmorWrap(title, lines, "\r", trailer);
    CoSigning.CleanArmoured(title, lines, "\r", trailer);
    var t := Terminated(lines, "\r");
    assert t == [t[0]] + t[1..];
    ConcatAppend([t[0]], t[1..]);
    assert Concat([t[0]]) == t[0] == lines[0] + "\r";
    assert Concat(t)[|lines[0]|] == '\r';
    var c := CoSigning.CleanBase64(s);
    assert forall i :: 0 <= i < |c| ==> !IsBase64Space(c[i]);
  }
}
