/** Removal of PEM armour (the textual encoding of RFC 7468 section 2) as both
    the co-signing cleaner and the verification path perform it: when the text
    holds a `-----BEGIN` marker it is split at line feeds, every line holding a
    `-----BEGIN` or `-----END` marker and every blank line is dropped, and the
    remaining lines are concatenated unchanged. */
module Armor {
  import opened Text
  import opened Base64

  const BeginMarker: string := "-----BEGIN"
  const EndMarker: string := "-----END"

  /** A line that survives the armour filter. */
  predicate IsBodyLine(line: string) {
    !Contains(line, BeginMarker) && !Contains(line, EndMarker) && !IsBlank(line)
  }

  /** The lines that survive, in their original order. */
  function BodyLines(lines: seq<string>): (r: seq<string>)
    ensures |r| <= |lines|
    ensures forall i :: 0 <= i < |r| ==> IsBodyLine(r[i])
  {
    if |lines| == 0 then []
    else (if IsBodyLine(lines[0]) then [lines[0]] else []) + BodyLines(lines[1..])
  }

  /** Text holding a BEGIN marker keeps only its body lines, joined; other
      text passes unchanged. Both the co-signing cleaner and the verify side
      extract base64 this way. */
  function StripArmor(s: string): string
  {
    if Contains(s, BeginMarker) then Concat(BodyLines(Split(s, '\n'))) else s
  }

  /** The filter distributes over concatenation, so survivors keep their order. */
  lemma {:induction false} BodyLinesAppend(a: seq<string>, b: seq<string>)
    ensures BodyLines(a + b) == BodyLines(a) + BodyLines(b)
    decreases |a|
  {
    if |a| == 0 {
      assert a + b == b;
    } else {
      assert (a + b)[0] == a[0] && (a + b)[1..] == a[1..] + b;
      BodyLinesAppend(a[1..], b);
    }
  }

  /** Lines that all survive are kept as they are. */
  lemma {:induction false} BodyLinesKeepsAll(lines: seq<string>)
    requires forall i :: 0 <= i < |lines| ==> IsBodyLine(lines[i])
    ensures BodyLines(lines) == lines
    decreases |lines|
  {
    if |lines| > 0 {
      BodyLinesKeepsAll(lines[1..]);
      assert lines == [lines[0]] + lines[1..];
    }
  }

  /** Lines none of which survives leave nothing. */
  lemma {:induction false} NoBodyLines(lines: seq<string>)
    requires forall i :: 0 <= i < |lines| ==> !IsBodyLine(lines[i])
    ensures BodyLines(lines) == []
    decreases |lines|
  {
    if |lines| > 0 {
      NoBodyLines(lines[1..]);
    }
  }

  /** A non-empty line of base64 text is a body line. */
  lemma Base64LineIsBody(line: string)
    requires |line| > 0 && IsBase64Text(line)
    ensures IsBodyLine(line)
  {
    assert BeginMarker[0] == '-' && EndMarker[0] == '-';
    assert '-' !in line by {
      forall i | 0 <= i < |line| ensures line[i] != '-' {
        assert IsAlphabetChar(line[i]) || line[i] == '=';
      }
    }
    MissingCharNotContained(line, BeginMarker, 0);
    MissingCharNotContained(line, EndMarker, 0);
    assert !IsWhiteSpace(line[0]) by {
      assert IsAlphabetChar(line[0]) || line[0] == '=';
    }
  }

  /** A non-empty base64 line followed by a carriage return is a body line too. */
  lemma Base64CrLineIsBody(line: string)
    requires |line| > 0 && IsBase64Text(line)
    ensures IsBodyLine(line + "\r")
  {
    var l := line + "\r";
    assert '-' !in l by {
      forall i | 0 <= i < |l| ensures l[i] != '-' {
        if i < |line| {
          assert l[i] == line[i];
          assert IsAlphabetChar(line[i]) || line[i] == '=';
        }
      }
    }
    MissingCharNotContained(l, BeginMarker, 0);
    MissingCharNotContained(l, EndMarker, 0);
    assert l[0] == line[0];
    assert !IsWhiteSpace(l[0]) by {
      assert IsAlphabetChar(line[0]) || line[0] == '=';
    }
  }

  /** The header line of an armoured object, optionally ending in `eol`. */
  function Header(title: string, eol: string): string {
    "-----BEGIN " + title + "-----" + eol
  }

  function Footer(title: string): string {
    "-----END " + title + "-----"
  }

  /** Every line followed by `eol`. */
  function Terminated(lines: seq<string>, eol: string): (r: seq<string>)
    ensures |r| == |lines|
    ensures forall i :: 0 <= i < |r| ==> r[i] == lines[i] + eol
  {
    if |lines| == 0 then [] else [lines[0] + eol] + Terminated(lines[1..], eol)
  }

  /** PEM armour around base64 lines: header, the lines, footer, each line ended
      by `eol` and a line feed (`eol` is empty for LF text, a carriage return for
      CRLF text); the footer has no line end of its own, so that any blank text
      after it (line ends, blank lines) can be appended. */
  function Wrap(title: string, lines: seq<string>, eol: string): string {
    Header(title, eol) + "\n" + JoinWith(Terminated(lines, eol), '\n') + "\n" + Footer(title)
  }

  /** Predicate for the lines `Wrap` is meant for. */
  predicate WrappableLines(lines: seq<string>) {
    |lines| >= 1 && forall i :: 0 <= i < |lines| ==> |lines[i]| > 0 && IsBase64Text(lines[i])
  }

  lemma WrapSplit(title: string, lines: seq<string>, eol: string, trailer: string)
    requires eol == "" || eol == "\r"
    requires '\n' !in title && WrappableLines(lines)
    ensures Split(Wrap(title, lines, eol) + trailer, '\n')
      == [Header(title, eol)] + Terminated(lines, eol) + Split(Footer(title) + trailer, '\n')
  {
    var h, f := Header(title, eol), Footer(title);
    var body := Terminated(lines, eol);
    assert '\n' !in h by {
      assert h == "-----BEGIN " + title + "-----" + eol;
    }
    TerminatedLinesSeparatorFree(lines, eol);
    var joined := JoinWith(body, '\n');
    var tail := joined + ['\n'] + (f + trailer);
    assert Wrap(title, lines, eol) == h + "\n" + joined + "\n" + f;
    RegroupLines(h, joined, f, trailer);
    SplitCons(h, '\n', tail);
    SplitJoined(body, '\n', f + trailer);
    assert [h] + (body + Split(f + trailer, '\n')) == [h] + body + Split(f + trailer, '\n');
  }

  lemma RegroupLines(a: string, b: string, c: string, d: string)
    ensures a + "\n" + b + "\n" + c + d == a + ['\n'] + (b + ['\n'] + (c + d))
  {
  }

  /** Base64 lines ended by nothing or a carriage return hold no line feed. */
  lemma TerminatedLinesSeparatorFree(lines: seq<string>, eol: string)
    requires eol == "" || eol == "\r"
    requires WrappableLines(lines)
    ensures SeparatorFree(Terminated(lines, eol), '\n')
  {
    var body := Terminated(lines, eol);
    forall i | 0 <= i < |body| ensures '\n' !in body[i] {
      assert body[i] == lines[i] + eol;
      assert IsBase64Text(lines[i]);
      assert forall j :: 0 <= j < |lines[i]| ==> lines[i][j] != '\n';
    }
  }

  /** The footer line, with whatever blank text follows it, leaves no body line. */
  lemma FooterTail(title: string, trailer: string)
    requires '\n' !in title && IsBlank(trailer)
    ensures BodyLines(Split(Footer(title) + trailer, '\n')) == []
  {
    var f := Footer(title);
    assert '\n' !in f by {
      assert f == "-----END " + title + "-----";
    }
    var r := Split(f + trailer, '\n');
    SplitLeading(f, trailer, '\n');
    SplitBlank(trailer, '\n');
    assert r[0][..|EndMarker|] == f[..|EndMarker|] == EndMarker;
    ContainsAt(r[0], EndMarker, 0);
    forall k | 1 <= k < |r| ensures IsBlank(r[k]) {
      assert r[k] == r[1..][k - 1] == Split(trailer, '\n')[k];
    }
    NoBodyLines(r);
  }

  /** Stripping the armour of wrapped base64 lines, followed by any blank
      text, yields the lines joined, each still carrying its `eol`. */
  lemma StripArmorWrap(title: string, lines: seq<string>, eol: string, trailer: string)
    requires eol == "" || eol == "\r"
    requires '\n' !in title && WrappableLines(lines) && IsBlank(trailer)
    ensures StripArmor(Wrap(title, lines, eol) + trailer) == Concat(Terminated(lines, eol))
  {
    var s := Wrap(title, lines, eol) + trailer;
    var h, f := Header(title, eol), Footer(title);
    var body := Terminated(lines, eol);
    assert s[..|BeginMarker|] == BeginMarker;
    ContainsAt(s, BeginMarker, 0);
    var tail := Split(f + trailer, '\n');
    WrapSplit(title, lines, eol, trailer);
    FooterTail(title, trailer);
    ContainsAt(h, BeginMarker, 0);
    assert !IsBodyLine(h);
    assert BodyLines([h]) == [];
    forall i | 0 <= i < |body| ensures IsBodyLine(body[i]) {
      if eol == "" {
        assert body[i] == lines[i];
        Base64LineIsBody(lines[i]);
      } else {
        Base64CrLineIsBody(lines[i]);
      }
    }
    BodyLinesKeepsAll(body);
    BodyLinesAppend([h], body);
    BodyLinesAppend([h] + body, tail);
    assert BodyLines(Split(s, '\n')) == body;
  }
}
