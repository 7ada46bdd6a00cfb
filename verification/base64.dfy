/** `Convert.FromBase64String` and `Convert.ToBase64String` of .NET over the
    standard alphabet of RFC 4648 section 4, with `=` padding. Decoding skips
    the four characters of `Text.IsBase64Space` wherever they stand, as the
    runtime does, and rejects everything else that is not well-formed. */
module Base64 {
  import opened Optional
  import opened Text

  type byte = x: int | 0 <= x < 256
  type sextet = x: int | 0 <= x < 64

  /** The message of the `FormatException` the runtime throws for text that
      does not decode. */
  const BadBase64Message: string :=
    "The input is not a valid Base-64 string as it contains a non-base 64 character, more than two padding characters, or an illegal character among the padding characters."

  predicate IsAlphabetChar(c: char) {
    ('A' <= c <= 'Z') || ('a' <= c <= 'z') || ('0' <= c <= '9') || c == '+' || c == '/'
  }

  /** Text made of alphabet characters and padding only. */
  predicate IsBase64Text(s: string) {
    forall i :: 0 <= i < |s| ==> IsAlphabetChar(s[i]) || s[i] == '='
  }

  /** The alphabet character of a six-bit value. */
  function CharOf(v: sextet): (c: char)
    ensures IsAlphabetChar(c)
  {
    if v < 26 then ('A' as int + v) as char
    else if v < 52 then ('a' as int + (v - 26)) as char
    else if v < 62 then ('0' as int + (v - 52)) as char
    else if v == 62 then '+'
    else '/'
  }

  /** The six-bit value of an alphabet character. */
  function ValueOf(c: char): (v: sextet)
    requires IsAlphabetChar(c)
    ensures CharOf(v) == c
  {
    if 'A' <= c <= 'Z' then c as int - 'A' as int
    else if 'a' <= c <= 'z' then c as int - 'a' as int + 26
    else if '0' <= c <= '9' then c as int - '0' as int + 52
    else if c == '+' then 62
    else 63
  }

  lemma ValueOfCharOf(v: sextet)
    ensures ValueOf(CharOf(v)) == v
  {
  }

  /** Three bytes as four characters. */
  function EncodeTriple(a: byte, b: byte, c: byte): string
  {
    [CharOf(a / 4), CharOf((a % 4) * 16 + b / 16), CharOf((b % 16) * 4 + c / 64), CharOf(c % 64)]
  }

  /** One trailing byte: two characters and two padding characters. */
  function EncodeSingle(a: byte): string
  {
    [CharOf(a / 4), CharOf((a % 4) * 16), '=', '=']
  }

  /** Two trailing bytes: three characters and one padding character. */
  function EncodePair(a: byte, b: byte): string
  {
    [CharOf(a / 4), CharOf((a % 4) * 16 + b / 16), CharOf((b % 16) * 4), '=']
  }

  function Encode(bytes: seq<byte>): (s: string)
    ensures |s| % 4 == 0
    ensures |bytes| > 0 ==> |s| > 0
    ensures IsBase64Text(s)
    decreases |bytes|
  {
    if |bytes| == 0 then ""
    else if |bytes| == 1 then EncodeSingle(bytes[0])
    else if |bytes| == 2 then EncodePair(bytes[0], bytes[1])
    else
      EncodeTriple(bytes[0], bytes[1], bytes[2]) + Encode(bytes[3..])
  }

  /** Four alphabet characters as three bytes. */
  function DecodeFull(c0: char, c1: char, c2: char, c3: char): Option<seq<byte>>
  {
    if IsAlphabetChar(c0) && IsAlphabetChar(c1) && IsAlphabetChar(c2) && IsAlphabetChar(c3) then
      var v0, v1, v2, v3 := ValueOf(c0), ValueOf(c1), ValueOf(c2), ValueOf(c3);
      Some([v0 * 4 + v1 / 16, (v1 % 16) * 16 + v2 / 4, (v2 % 4) * 64 + v3])
    else None
  }

  /** The final quadruple, which may end in one or two padding characters.
      Bits below the last whole byte are ignored. */
  function DecodeLast(c0: char, c1: char, c2: char, c3: char): Option<seq<byte>>
  {
    if c3 != '=' then DecodeFull(c0, c1, c2, c3)
    else if IsAlphabetChar(c0) && IsAlphabetChar(c1) && IsAlphabetChar(c2) then
      var v0, v1, v2 := ValueOf(c0), ValueOf(c1), ValueOf(c2);
      Some([v0 * 4 + v1 / 16, (v1 % 16) * 16 + v2 / 4])
    else if IsAlphabetChar(c0) && IsAlphabetChar(c1) && c2 == '=' then
      var v0, v1 := ValueOf(c0), ValueOf(c1);
      Some([v0 * 4 + v1 / 16])
    else None
  }

  /** Decoding of space-free text whose length is a multiple of four. */
  function DecodeQuads(t: string): (r: Option<seq<byte>>)
    requires |t| % 4 == 0
    ensures r.Some? && |t| > 0 ==> |r.value| > 0
    decreases |t|
  {
    if |t| == 0 then Some([])
    else if |t| == 4 then DecodeLast(t[0], t[1], t[2], t[3])
    else
      match DecodeFull(t[0], t[1], t[2], t[3])
      case None => None
      case Some(head) =>
        match DecodeQuads(t[4..])
        case None => None
        case Some(tail) => Some(head + tail)
  }

  /** `Convert.FromBase64String`; `None` stands for its `FormatException`. */
  function Decode(s: string): Option<seq<byte>>
  {
    var t := RemoveSpaces(s);
    if |t| % 4 != 0 then None else DecodeQuads(t)
  }

  /** Splitting a value into a high part and a low remainder of base 16. */
  lemma Base16Parts(hi: int, lo: int)
    requires 0 <= lo < 16
    ensures (hi * 16 + lo) / 16 == hi && (hi * 16 + lo) % 16 == lo
  {
  }

  /** Splitting a value into a high part and a low remainder of base 4. */
  lemma Base4Parts(hi: int, lo: int)
    requires 0 <= lo < 4
    ensures (hi * 4 + lo) / 4 == hi && (hi * 4 + lo) % 4 == lo
  {
  }

  lemma TripleRoundTrip(a: byte, b: byte, c: byte)
    ensures var q := EncodeTriple(a, b, c); DecodeFull(q[0], q[1], q[2], q[3]) == Some([a, b, c])
  {
    var v0, v1, v2, v3 := a / 4, (a % 4) * 16 + b / 16, (b % 16) * 4 + c / 64, c % 64;
    ValueOfCharOf(v0);
    ValueOfCharOf(v1);
    ValueOfCharOf(v2);
    ValueOfCharOf(v3);
    Base16Parts(a % 4, b / 16);
    Base4Parts(b % 16, c / 64);
    assert v0 * 4 + v1 / 16 == a;
    assert (v1 % 16) * 16 + v2 / 4 == b;
    assert (v2 % 4) * 64 + v3 == c;
  }

  lemma SingleRoundTrip(a: byte)
    ensures var q := EncodeSingle(a); DecodeLast(q[0], q[1], q[2], q[3]) == Some([a])
  {
    var v0, v1 := a / 4, (a % 4) * 16;
    ValueOfCharOf(v0);
    ValueOfCharOf(v1);
    Base16Parts(a % 4, 0);
    assert v0 * 4 + v1 / 16 == a;
  }

  lemma PairRoundTrip(a: byte, b: byte)
    ensures var q := EncodePair(a, b); DecodeLast(q[0], q[1], q[2], q[3]) == Some([a, b])
  {
    var v0, v1, v2 := a / 4, (a % 4) * 16 + b / 16, (b % 16) * 4;
    ValueOfCharOf(v0);
    ValueOfCharOf(v1);
    ValueOfCharOf(v2);
    Base16Parts(a % 4, b / 16);
    Base4Parts(b % 16, 0);
    assert v0 * 4 + v1 / 16 == a;
    assert (v1 % 16) * 16 + v2 / 4 == b;
  }

  lemma DecodeQuadsPair(bytes: seq<byte>)
    requires |bytes| == 2
    ensures DecodeQuads(Encode(bytes)) == Some(bytes)
  {
    var q := EncodePair(bytes[0], bytes[1]);
    assert Encode(bytes) == q;
    PairRoundTrip(bytes[0], bytes[1]);
    assert bytes == [bytes[0], bytes[1]];
  }

  lemma DecodeQuadsStep(bytes: seq<byte>)
    requires |bytes| > 3
    requires DecodeQuads(Encode(bytes[3..])) == Some(bytes[3..])
    ensures DecodeQuads(Encode(bytes)) == Some(bytes)
  {
    var q := EncodeTriple(bytes[0], bytes[1], bytes[2]);
    var rest := Encode(bytes[3..]);
    var head, tail := [bytes[0], bytes[1], bytes[2]], bytes[3..];
    assert Encode(bytes) == q + rest;
    TripleRoundTrip(bytes[0], bytes[1], bytes[2]);
    DecodeQuadsCons(q, rest, head, tail);
    SplitThree(bytes);
  }

  lemma SplitThree(bytes: seq<byte>)
    requires |bytes| >= 3
    ensures bytes == [bytes[0], bytes[1], bytes[2]] + bytes[3..]
  {
  }

  lemma DecodeQuadsThree(a: byte, b: byte, c: byte)
    ensures DecodeQuads(Encode([a, b, c])) == Some([a, b, c])
  {
    assert [a, b, c][3..] == [];
    assert Encode([a, b, c]) == EncodeTriple(a, b, c);
    DecodeQuadsTriple(a, b, c);
  }

  lemma DecodeQuadsTriple(a: byte, b: byte, c: byte)
    ensures DecodeQuads(EncodeTriple(a, b, c)) == Some([a, b, c])
  {
    var q := EncodeTriple(a, b, c);
    TripleRoundTrip(a, b, c);
    assert q[3] != '=';
    assert DecodeQuads(q) == DecodeLast(q[0], q[1], q[2], q[3]);
  }

  /** Decoding a full quadruple followed by more quadruples. */
  lemma DecodeQuadsCons(q: string, rest: string, head: seq<byte>, tail: seq<byte>)
    requires |q| == 4 && |rest| % 4 == 0 && |rest| > 0
    requires DecodeFull(q[0], q[1], q[2], q[3]) == Some(head)
    requires DecodeQuads(rest) == Some(tail)
    ensures DecodeQuads(q + rest) == Some(head + tail)
  {
    var t := q + rest;
    assert t[0] == q[0] && t[1] == q[1] && t[2] == q[2] && t[3] == q[3];
    assert t[4..] == rest;
  }

  lemma {:induction false} DecodeQuadsEncode(bytes: seq<byte>)
    ensures DecodeQuads(Encode(bytes)) == Some(bytes)
    decreases |bytes|
  {
    if |bytes| == 1 {
      SingleRoundTrip(bytes[0]);
      assert Encode(bytes) == EncodeSingle(bytes[0]);
      assert bytes == [bytes[0]];
    } else if |bytes| == 2 {
      DecodeQuadsPair(bytes);
    } else if |bytes| == 3 {
      assert bytes == [bytes[0], bytes[1], bytes[2]];
      DecodeQuadsThree(bytes[0], bytes[1], bytes[2]);
    } else if |bytes| > 3 {
      DecodeQuadsEncode(bytes[3..]);
      DecodeQuadsStep(bytes);
    }
  }

  lemma Base64TextHasNoSpaces(s: string)
    requires IsBase64Text(s)
    ensures forall i :: 0 <= i < |s| ==> !IsBase64Space(s[i]) && !IsWhiteSpace(s[i])
  {
  }

  /** Decoding skips the four space characters, so removing them first changes nothing. */
  lemma DecodeIgnoresSpaces(s: string)
    ensures Decode(RemoveSpaces(s)) == Decode(s)
  {
    RemoveSpacesIdentity(RemoveSpaces(s));
  }

  /** Decoding undoes encoding. */
  lemma DecodeEncode(bytes: seq<byte>)
    ensures Decode(Encode(bytes)) == Some(bytes)
  {
    var s := Encode(bytes);
    Base64TextHasNoSpaces(s);
    RemoveSpacesIdentity(s);
    DecodeQuadsEncode(bytes);
  }

  /** A character outside the alphabet, the padding and the skipped spaces
      makes decoding fail. */
  lemma {:induction false} DecodeQuadsRejects(t: string, i: nat)
    requires |t| % 4 == 0 && i < |t|
    requires !IsAlphabetChar(t[i]) && t[i] != '='
    ensures DecodeQuads(t) == None
    decreases |t|
  {
    if |t| > 4 && i >= 4 {
      DecodeQuadsRejects(t[4..], i - 4);
    }
  }

  lemma DecodeRejects(s: string, i: nat)
    requires i < |s|
    requires !IsAlphabetChar(s[i]) && s[i] != '=' && !IsBase64Space(s[i])
    ensures Decode(s) == None
  {
    var t := RemoveSpaces(s);
    RemoveSpacesKeeps(s, i);
    var j :| 0 <= j < |t| && t[j] == s[i];
    if |t| % 4 == 0 {
      DecodeQuadsRejects(t, j);
    }
  }
}
