/** `CmsCoSigningService`: adding one more signer to an existing CMS SignedData
    object. The existing object arrives as base64 or PEM text; the provider
    signs the original content afresh; the signer records and certificates of
    both objects are merged into one new object that carries the content. */
module CoSigning {
  import opened Optional
  import opened Text
  import opened Base64
  import opened Armor
  import opened Kalkan
  import opened Cms

  /** Which of the two objects a failure or warning concerns (the source's
      "existing" and "new" labels). */
  datatype Side = ExistingSide | NewSide

  /** What the composition logs as a warning instead of failing. */
  datatype Warning =
    | CertificatesSkipped(side: Side)
    | SignerCountMismatch(expected: nat, actual: nat)

  /** Why a co-signature could not be produced: text that is not base64
      (`FormatException`), bytes that are not CMS, or a failing provider. */
  datatype CoSignError =
    | InvalidBase64(side: Side)
    | InvalidCms(side: Side)
    | SignerFailed(error: Exception)

  datatype Read = ReadOk(cms: ParsedCms) | ReadFailed(error: CoSignError)

  datatype CoSignResult =
    | CoSigned(encoded: string, merged: SignedData, warnings: seq<Warning>)
    | CoSignFailed(error: CoSignError)

  /** The flags of the added signature: attached CMS with a timestamp, base64 out. */
  const CoSignFlags: set<SignFlag> := {SignCms, WithTimestamp, OutputBase64}

  lemma RemoveFourIsRemoveSpaces(s: string)
    ensures RemoveChar(RemoveChar(RemoveChar(RemoveChar(s, '\r'), '\n'), ' '), '\t') == RemoveSpaces(s)
    decreases |s|
  {
    if |s| > 0 {
      var x, t := s[0], s[1..];
      var a1 := if x == '\r' then "" else [x];
      var a2 := if x == '\r' || x == '\n' then "" else [x];
      var a3 := if x == '\r' || x == '\n' || x == ' ' then "" else [x];
      var t1 := RemoveChar(t, '\r');
      var t2 := RemoveChar(t1, '\n');
      var t3 := RemoveChar(t2, ' ');
      assert RemoveChar(s, '\r') == a1 + t1;
      RemoveCharConcat(a1, t1, '\n');
      assert RemoveChar(a1, '\n') == a2;
      RemoveCharConcat(a2, t2, ' ');
      assert RemoveChar(a2, ' ') == a3;
      RemoveCharConcat(a3, t3, '\t');
      RemoveFourIsRemoveSpaces(t);
    }
  }

  /** The cleaning of the existing signature text: armour stripped, then every
      carriage return, line feed, space and tab removed. */
  function CleanBase64(s: string): (r: string)
    ensures r == RemoveSpaces(StripArmor(s))
    ensures forall i :: 0 <= i < |r| ==> !IsBase64Space(r[i])
  {
    var stripped := StripArmor(s);
    RemoveFourIsRemoveSpaces(stripped);
    RemoveChar(RemoveChar(RemoveChar(RemoveChar(stripped, '\r'), '\n'), ' '), '\t')
  }

  /** Decoding base64 text and parsing the bytes as CMS. */
  function ReadCms(codec: Codec, text: string, side: Side): (r: Read)
    ensures Decode(text).None? ==> r == ReadFailed(InvalidBase64(side))
    ensures Decode(text).Some? && codec.parse(Decode(text).value).None? ==> r == ReadFailed(InvalidCms(side))
    ensures r.ReadOk? <==> Decode(text).Some? && codec.parse(Decode(text).value).Some?
    ensures r.ReadOk? ==> Some(r.cms) == codec.parse(Decode(text).value)
  {
    match Decode(text)
    case None => ReadFailed(InvalidBase64(side))
    case Some(bytes) =>
      match codec.parse(bytes)
      case None => ReadFailed(InvalidCms(side))
      case Some(cms) => ReadOk(cms)
  }

  /** The existing object, read from its cleaned text. */
  function ExistingCms(codec: Codec, text: string): Read
  {
    ReadCms(codec, CleanBase64(text), ExistingSide)
  }

  /** `CreateNewSignature`: the provider signs the content with `CoSignFlags`. */
  function CreateNewSignature(p: Provider, ks: KeyStoreState, data: seq<byte>): Outcome<string>
  {
    p.sign(ks, data, FlagSign(CoSignFlags))
  }

  /** The added signature, produced and read back. */
  function FreshCms(codec: Codec, p: Provider, ks: KeyStoreState, data: seq<byte>): Read
  {
    match CreateNewSignature(p, ks, data)
    case Threw(e) => ReadFailed(SignerFailed(e))
    case Ok(text) => ReadCms(codec, text, NewSide)
  }

  /** The warning left when a store's enumeration throws. */
  function Skipped(cms: ParsedCms, side: Side): seq<Warning> {
    if cms.store.FailingStore? then [CertificatesSkipped(side)] else []
  }

  /** `AddCertificates`: best effort. A missing or empty store adds nothing; a
      store whose enumeration throws adds nothing and leaves a warning; the
      composition goes on in every case. */
  function AddCertificates(g: Generator, cms: ParsedCms, side: Side): (r: (Generator, seq<Warning>))
    ensures r.0.signers == g.signers
    ensures r.0.certificates == g.certificates + StoreCertificates(cms.store)
    ensures r.1 == Skipped(cms, side)
  {
    match cms.store
    case NoStore => (g, [])
    case FailingStore => (g, [CertificatesSkipped(side)])
    case Store(certificates) =>
      if |certificates| > 0 then (AddCertificateList(g, certificates), []) else (g, [])
  }

  /** `MergeSignatures`: existing signers, then the new ones; certificates of
      both; the content attached. */
  function MergeSignatures(existing: ParsedCms, added: ParsedCms, data: seq<byte>): (r: (SignedData, seq<Warning>))
    ensures r.0.signers == existing.signers + added.signers
    ensures multiset(r.0.signers) == multiset(existing.signers) + multiset(added.signers)
    ensures |r.0.signers| == |existing.signers| + |added.signers|
    ensures r.0.certificates == StoreCertificates(existing.store) + StoreCertificates(added.store)
    ensures multiset(r.0.certificates)
      == multiset(StoreCertificates(existing.store)) + multiset(StoreCertificates(added.store))
    ensures r.0.content == data && r.0.encapsulated
    ensures r.1 == Skipped(existing, ExistingSide) + Skipped(added, NewSide)
  {
    var g1 := AddSigners(EmptyGenerator, existing.signers);
    var g2 := AddSigners(g1, added.signers);
    var (g3, skippedExisting) := AddCertificates(g2, existing, ExistingSide);
    var (g4, skippedNew) := AddCertificates(g3, added, NewSide);
    (Generate(g4, data, true), skippedExisting + skippedNew)
  }

  /** The warning the source logs when the merged count is not existing + 1:
      expected and actual counts. */
  function CountCheck(existingCount: nat, mergedCount: nat): seq<Warning>
  {
    var expected := existingCount + 1;
    if mergedCount != expected then [SignerCountMismatch(expected, mergedCount)] else []
  }

  /** The warnings a successful co-signature reports, in the order they are
      logged: skipped certificates on the existing side, then on the new side,
      then the signer count check. */
  function CoSignWarnings(existing: ParsedCms, added: ParsedCms): seq<Warning>
  {
    Skipped(existing, ExistingSide) + Skipped(added, NewSide)
      + CountCheck(|existing.signers|, |existing.signers| + |added.signers|)
  }

  /** `AddCoSignature`. The existing text is cleaned, decoded and parsed before
      the provider is asked for anything; a signer count other than existing + 1
      is only a warning. */
  function AddCoSignature(codec: Codec, p: Provider, ks: KeyStoreState, existingText: string, data: seq<byte>): (r: CoSignResult)
    ensures ExistingCms(codec, existingText).ReadFailed? ==> r == CoSignFailed(ExistingCms(codec, existingText).error)
    ensures r.CoSigned? <==> ExistingCms(codec, existingText).ReadOk? && FreshCms(codec, p, ks, data).ReadOk?
    ensures ExistingCms(codec, existingText).ReadOk? && FreshCms(codec, p, ks, data).ReadFailed? ==>
      r == CoSignFailed(FreshCms(codec, p, ks, data).error)
    ensures r.CoSigned? ==>
      var existing, added := ExistingCms(codec, existingText).cms, FreshCms(codec, p, ks, data).cms;
      && r.merged.signers == existing.signers + added.signers
      && r.merged.certificates == StoreCertificates(existing.store) + StoreCertificates(added.store)
      && r.merged.content == data && r.merged.encapsulated
      && r.encoded == Encode(codec.encode(r.merged))
      && Decode(r.encoded) == Some(codec.encode(r.merged))
      && r.warnings == CoSignWarnings(existing, added)
  {
    match ExistingCms(codec, existingText)
    case ReadFailed(e) => CoSignFailed(e)
    case ReadOk(existing) =>
      match FreshCms(codec, p, ks, data)
      case ReadFailed(e) => CoSignFailed(e)
      case ReadOk(added) => Combine(codec, existing, added, data)
  }

  /** The success path of `AddCoSignature`: merge, encode, and append the
      count check to the certificate warnings. */
  function Combine(codec: Codec, existing: ParsedCms, added: ParsedCms, data: seq<byte>): (r: CoSignResult)
    ensures r.CoSigned?
    ensures r.merged.signers == existing.signers + added.signers
    ensures r.merged.certificates == StoreCertificates(existing.store) + StoreCertificates(added.store)
    ensures r.merged.content == data && r.merged.encapsulated
    ensures r.encoded == Encode(codec.encode(r.merged))
    ensures Decode(r.encoded) == Some(codec.encode(r.merged))
    ensures r.warnings == CoSignWarnings(existing, added)
  {
    var merge := MergeSignatures(existing, added, data);
    var warnings := merge.1 + CountCheck(|existing.signers|, |merge.0.signers|);
    assert warnings == CoSignWarnings(existing, added);
    Encoded(codec, merge.0, warnings)
  }

  /** A merged object as the service returns it: base64 text that decodes back
      to the codec's encoding of exactly that object. */
  function Encoded(codec: Codec, merged: SignedData, warnings: seq<Warning>): (r: CoSignResult)
    ensures r.CoSigned? && r.merged == merged && r.warnings == warnings
    ensures r.encoded == Encode(codec.encode(merged))
    ensures Decode(r.encoded) == Some(codec.encode(merged))
  {
    var bytes := codec.encode(merged);
    DecodeEncode(bytes);
    CoSigned(Encode(bytes), merged, warnings)
  }

  /** The count warning appears exactly when the added signature does not hold
      exactly one signer, and it never prevents the result. */
  lemma CountMismatchOnlyWarns(codec: Codec, p: Provider, ks: KeyStoreState, existingText: string, data: seq<byte>)
    requires ExistingCms(codec, existingText).ReadOk? && FreshCms(codec, p, ks, data).ReadOk?
    ensures var r := AddCoSignature(codec, p, ks, existingText, data);
      && r.CoSigned?
      && ((exists w :: w in r.warnings && w.SignerCountMismatch?) <==> |FreshCms(codec, p, ks, data).cms.signers| != 1)
  {
    var existing, added := ExistingCms(codec, existingText).cms, FreshCms(codec, p, ks, data).cms;
    CountWarningIffNotOne(existing, added);
  }

  /** Behind certificate warnings, the count warning is there exactly when the
      new signature's signer count is not one. */
  lemma CountWarningIffNotOne(existing: ParsedCms, added: ParsedCms)
    ensures (exists w :: w in CoSignWarnings(existing, added) && w.SignerCountMismatch?) <==> |added.signers| != 1
  {
    var skipped := Skipped(existing, ExistingSide) + Skipped(added, NewSide);
    var warnings := CoSignWarnings(existing, added);
    assert warnings == skipped + CountCheck(|existing.signers|, |existing.signers| + |added.signers|);
    assert forall w :: w in skipped ==> w.CertificatesSkipped?;
    if |added.signers| != 1 {
      assert warnings[|skipped|] in warnings;
    }
  }

  /** Text that does not clean, decode and parse fails before the provider is
      consulted: the outcome is the same whatever provider and keystore. */
  lemma FailsBeforeSigning(codec: Codec, p1: Provider, ks1: KeyStoreState, p2: Provider, ks2: KeyStoreState,
                           existingText: string, data: seq<byte>)
    requires ExistingCms(codec, existingText).ReadFailed?
    ensures AddCoSignature(codec, p1, ks1, existingText, data) == AddCoSignature(codec, p2, ks2, existingText, data)
    ensures AddCoSignature(codec, p1, ks1, existingText, data).CoSignFailed?
  {
  }

  /** Unarmoured text holding a character that is neither base64, padding
      nor one of the skipped spaces fails with a format error on the existing
      side, whatever the provider. */
  lemma ForeignCharRejected(codec: Codec, p: Provider, ks: KeyStoreState, s: string, data: seq<byte>, i: nat)
    requires !Contains(s, BeginMarker)
    requires i < |s| && !IsAlphabetChar(s[i]) && s[i] != '=' && !IsBase64Space(s[i])
    ensures AddCoSignature(codec, p, ks, s, data) == CoSignFailed(InvalidBase64(ExistingSide))
  {
    assert StripArmor(s) == s;
    DecodeIgnoresSpaces(s);
    DecodeRejects(s, i);
  }

  /** The text `not-valid-base64!!!` fails with a base64 format error. */
  lemma InvalidBase64Rejected(codec: Codec, p: Provider, ks: KeyStoreState, s: string, data: seq<byte>)
    requires s == "not-valid-base64!!!"
    ensures AddCoSignature(codec, p, ks, s, data) == CoSignFailed(InvalidBase64(ExistingSide))
  {
    assert BeginMarker[5] == 'B';
    assert 'B' !in s;
    MissingCharNotContained(s, BeginMarker, 5);
    assert s[3] == '-';
    ForeignCharRejected(codec, p, ks, s, data, 3);
  }

  /** PEM-armoured base64 text never fails as a base64 format error: it is
      read as the bytes it encodes, whatever the parser then makes of them. */
  lemma PemWrappedNotFormatError(codec: Codec, p: Provider, ks: KeyStoreState, bytes: seq<byte>, data: seq<byte>)
    ensures var text := Header("PKCS7", "") + "\n" + Encode(bytes) + "\n" + Footer("PKCS7");
      && ExistingCms(codec, text) == ReadCms(codec, Encode(bytes), ExistingSide)
      && AddCoSignature(codec, p, ks, text, data) != CoSignFailed(InvalidBase64(ExistingSide))
  {
    var b := Encode(bytes);
    PemRoundTrip(b);
    DecodeEncode(bytes);
  }

  /** Spaces inserted anywhere into unarmoured base64 text are removed and the
      rest is kept in order. */
  lemma CleanRemovesInsertedSpaces(a: string, w: string, b: string)
    requires IsBase64Text(a) && IsBase64Text(b)
    requires forall i :: 0 <= i < |w| ==> IsBase64Space(w[i])
    requires !Contains(a + w + b, BeginMarker)
    ensures CleanBase64(a + w + b) == a + b
  {
    var s := a + w + b;
    assert StripArmor(s) == s;
    Base64TextHasNoSpaces(a);
    Base64TextHasNoSpaces(b);
    RemoveSpacesConcat(a + w, b);
    RemoveSpacesConcat(a, w);
    RemoveSpacesAllSpace(w);
    RemoveSpacesIdentity(a);
    RemoveSpacesIdentity(b);
    calc {
      CleanBase64(s);
      RemoveSpaces(s);
      RemoveSpaces(a + w) + RemoveSpaces(b);
      RemoveSpaces(a) + RemoveSpaces(w) + RemoveSpaces(b);
      a + "" + b;
      { assert a + "" == a; }
      a + b;
    }
  }

  lemma {:induction false} RemoveSpacesTerminated(lines: seq<string>, eol: string)
    requires eol == "" || eol == "\r"
    requires forall i :: 0 <= i < |lines| ==> IsBase64Text(lines[i])
    ensures RemoveSpaces(Concat(Terminated(lines, eol))) == Concat(lines)
    decreases |lines|
  {
    if |lines| > 0 {
      var head, more := lines[0], lines[1..];
      var t := Terminated(lines, eol);
      var rest := Concat(Terminated(more, eol));
      assert t == [head + eol] + Terminated(more, eol);
      assert Concat(t) == (head + eol) + rest;
      RemoveSpacesConcat(head + eol, rest);
      RemoveSpacesConcat(head, eol);
      Base64TextHasNoSpaces(head);
      RemoveSpacesIdentity(head);
      RemoveSpacesAllSpace(eol);
      RemoveSpacesTerminated(more, eol);
      calc {
        RemoveSpaces(Concat(t));
        RemoveSpaces(head + eol) + RemoveSpaces(rest);
        RemoveSpaces(head) + RemoveSpaces(eol) + Concat(more);
        head + "" + Concat(more);
        { assert head + "" == head; }
        head + Concat(more);
        Concat(lines);
      }
    }
  }

  /** Cleaning PEM-armoured base64, LF or CRLF, multi-line or not, with or
      without line ends and blank lines after the footer, gives back the
      base64 lines joined. */
  lemma CleanArmoured(title: string, lines: seq<string>, eol: string, trailer: string)
    requires eol == "" || eol == "\r"
    requires '\n' !in title && WrappableLines(lines) && IsBlank(trailer)
    ensures CleanBase64(Wrap(title, lines, eol) + trailer) == Concat(lines)
  {
    StripArmorWrap(title, lines, eol, trailer);
    RemoveSpacesTerminated(lines, eol);
  }

  /** An armoured object with an empty body cleans to nothing. */
  lemma CleanEmptyArmour(title: string)
    requires '\n' !in title
    ensures CleanBase64(Header(title, "") + "\n" + "\n" + Footer(title)) == ""
  {
    var h, f := Header(title, ""), Footer(title);
    var s := h + "\n" + "\n" + f;
    assert '\n' !in h && '\n' !in f;
    assert s == h + ['\n'] + ("" + ['\n'] + f);
    SplitCons(h, '\n', "" + ['\n'] + f);
    SplitCons("", '\n', f);
    SplitNoSeparator(f, '\n');
    assert Split(s, '\n') == [h, "", f];
    assert s[..|BeginMarker|] == BeginMarker;
    ContainsAt(s, BeginMarker, 0);
    ContainsAt(h, BeginMarker, 0);
    ContainsAt(f, EndMarker, 0);
    assert !IsBodyLine(h) && !IsBodyLine("") && !IsBodyLine(f);
    assert [h, "", f][1..] == ["", f] && ["", f][1..] == [f] && [f][1..] == [];
    assert BodyLines([f]) == [];
    assert BodyLines(["", f]) == [];
    assert BodyLines([h, "", f]) == [];
    assert StripArmor(s) == "";
  }

  /** The PKCS7 round trip: armouring base64 text and cleaning it is the identity. */
  lemma PemRoundTrip(b: string)
    requires IsBase64Text(b)
    ensures CleanBase64(Header("PKCS7", "") + "\n" + b + "\n" + Footer("PKCS7")) == b
  {
    if |b| > 0 {
      assert b + "" == b;
      assert Terminated([b], "") == [b];
      assert Header("PKCS7", "") + "\n" + b + "\n" + Footer("PKCS7") == Wrap("PKCS7", [b], "") + "";
      CleanArmoured("PKCS7", [b], "", "");
    } else {
      assert Header("PKCS7", "") + "\n" + b + "\n" + Footer("PKCS7")
          == Header("PKCS7", "") + "\n" + "\n" + Footer("PKCS7");
      CleanEmptyArmour("PKCS7");
    }
  }

  /** Base64 text without armour passes the cleaner unchanged. */
  lemma CleanBase64Text(text: string)
    requires IsBase64Text(text)
    ensures CleanBase64(text) == text
  {
    Base64TextHasNoSpaces(text);
    RemoveSpacesIdentity(text);
    assert '-' !in text by {
      forall i | 0 <= i < |text| ensures text[i] != '-' {
        assert IsAlphabetChar(text[i]) || text[i] == '=';
      }
    }
    assert BeginMarker[0] == '-';
    MissingCharNotContained(text, BeginMarker, 0);
  }

  /** Encoded bytes, offered as existing text, are read as the codec parses them. */
  lemma ReadEncoded(codec: Codec, bytes: seq<byte>)
    ensures ExistingCms(codec, Encode(bytes)) == ReadCms(codec, Encode(bytes), ExistingSide)
    ensures Decode(Encode(bytes)) == Some(bytes)
  {
    CleanBase64Text(Encode(bytes));
    DecodeEncode(bytes);
  }

  /** The output of a co-signing is itself accepted as existing text: with a
      codec that reads back the signers it encodes (in any order, since a DER
      SET sorts its members) and an added signature of one signer, co-signing
      again keeps every signer and adds exactly one. */
  lemma CoSigningChains(codec: Codec, p: Provider, ks: KeyStoreState, existingText: string, data: seq<byte>,
                        p2: Provider, ks2: KeyStoreState, data2: seq<byte>)
    requires AddCoSignature(codec, p, ks, existingText, data).CoSigned?
    requires var m := AddCoSignature(codec, p, ks, existingText, data).merged;
      codec.parse(codec.encode(m)).Some? && multiset(codec.parse(codec.encode(m)).value.signers) == multiset(m.signers)
    requires FreshCms(codec, p2, ks2, data2).ReadOk? && |FreshCms(codec, p2, ks2, data2).cms.signers| == 1
    ensures var first := AddCoSignature(codec, p, ks, existingText, data);
      var second := AddCoSignature(codec, p2, ks2, first.encoded, data2);
      && second.CoSigned?
      && |second.merged.signers| == |first.merged.signers| + 1
      && multiset(second.merged.signers)
         == multiset(first.merged.signers) + multiset(FreshCms(codec, p2, ks2, data2).cms.signers)
      && !(exists w :: w in second.warnings && w.SignerCountMismatch?)
  {
    var first := AddCoSignature(codec, p, ks, existingText, data);
    var m := first.merged;
    var text := first.encoded;
    assert text == Encode(codec.encode(m));
    ReadEncoded(codec, codec.encode(m));
    var parsed := codec.parse(codec.encode(m)).value;
    assert ExistingCms(codec, text) == ReadOk(parsed);
    assert |parsed.signers| == |multiset(parsed.signers)| == |multiset(m.signers)| == |m.signers|;
    CountMismatchOnlyWarns(codec, p2, ks2, text, data2);
  }
}
