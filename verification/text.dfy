/** String primitives of the .NET and JavaScript runtimes that the modelled code
    relies on, over `string` = `seq<char>`. Comparison is ordinal throughout, as
    in `string.Contains(string)`, `string.Split(char)` and `lastIndexOf`. */
module Text {

  /** The four characters that `Convert.FromBase64String` skips and that the
      co-signing cleaner strips: carriage return, line feed, space and tab. */
  predicate IsBase64Space(c: char) {
    c == '\r' || c == '\n' || c == ' ' || c == '\t'
  }

  /** `char.IsWhiteSpace`: the characters of the Unicode White_Space property. */
  predicate IsWhiteSpace(c: char) {
    || ('\t' <= c <= '\r')
    || c == ' '
    || c == '\U{0085}'
    || c == '\U{00A0}'
    || c == '\U{1680}'
    || ('\U{2000}' <= c <= '\U{200A}')
    || c == '\U{2028}'
    || c == '\U{2029}'
    || c == '\U{202F}'
    || c == '\U{205F}'
    || c == '\U{3000}'
  }

  /** `string.IsNullOrWhiteSpace` on a present string. */
  predicate IsBlank(s: string) {
    forall i :: 0 <= i < |s| ==> IsWhiteSpace(s[i])
  }

  /** `s.Contains(t)`: `t` occurs in `s` as a contiguous run. */
  predicate Contains(s: string, t: string)
    decreases |s|
  {
    |t| <= |s| && (s[..|t|] == t || Contains(s[1..], t))
  }

  lemma {:induction false} ContainsAt(s: string, t: string, i: nat)
    requires i + |t| <= |s| && s[i..i + |t|] == t
    ensures Contains(s, t)
    decreases i
  {
    if i > 0 {
      assert s[1..][i - 1..i - 1 + |t|] == s[i..i + |t|];
      ContainsAt(s[1..], t, i - 1);
    }
  }

  /** A run that uses a character absent from `s` cannot occur in `s`. */
  lemma {:induction false} MissingCharNotContained(s: string, t: string, k: nat)
    requires k < |t| && t[k] !in s
    ensures !Contains(s, t)
    decreases |s|
  {
    if |t| <= |s| {
      assert s[..|t|][k] == s[k];
      assert s[..|t|] != t;
      MissingCharNotContained(s[1..], t, k);
    }
  }

  /** Position of the last `c` in `s`, or -1 (`lastIndexOf`). */
  function LastIndexOf(s: string, c: char): (k: int)
    ensures -1 <= k < |s|
    ensures k == -1 <==> c !in s
    ensures k >= 0 ==> s[k] == c && forall j :: k < j < |s| ==> s[j] != c
  {
    if |s| == 0 then -1
    else if s[|s| - 1] == c then |s| - 1
    else
      assert s == s[..|s| - 1] + [s[|s| - 1]];
      LastIndexOf(s[..|s| - 1], c)
  }

  /** `s.Replace(c.ToString(), "")`: every `c` removed. */
  function RemoveChar(s: string, c: char): (r: string)
    ensures c !in r
  {
    if |s| == 0 then ""
    else (if s[0] == c then "" else [s[0]]) + RemoveChar(s[1..], c)
  }

  lemma {:induction false} RemoveCharConcat(a: string, b: string, c: char)
    ensures RemoveChar(a + b, c) == RemoveChar(a, c) + RemoveChar(b, c)
    decreases |a|
  {
    if |a| > 0 {
      assert (a + b)[0] == a[0] && (a + b)[1..] == a[1..] + b;
      RemoveCharConcat(a[1..], b, c);
    } else {
      assert a + b == b;
    }
  }

  /** The four-character removal the cleaner performs, as one filter. */
  function RemoveSpaces(s: string): (r: string)
    ensures forall i :: 0 <= i < |r| ==> !IsBase64Space(r[i])
    ensures |r| <= |s|
  {
    if |s| == 0 then ""
    else (if IsBase64Space(s[0]) then "" else [s[0]]) + RemoveSpaces(s[1..])
  }

  /** Removing spaces distributes over concatenation: what is kept keeps its order. */
  lemma {:induction false} RemoveSpacesConcat(a: string, b: string)
    ensures RemoveSpaces(a + b) == RemoveSpaces(a) + RemoveSpaces(b)
    decreases |a|
  {
    if |a| > 0 {
      assert (a + b)[0] == a[0] && (a + b)[1..] == a[1..] + b;
      RemoveSpacesConcat(a[1..], b);
    } else {
      assert a + b == b;
    }
  }

  /** A string without the four characters is left as it is. */
  lemma {:induction false} RemoveSpacesIdentity(s: string)
    requires forall i :: 0 <= i < |s| ==> !IsBase64Space(s[i])
    ensures RemoveSpaces(s) == s
    decreases |s|
  {
    if |s| > 0 {
      RemoveSpacesIdentity(s[1..]);
    }
  }

  /** A string made only of the four characters vanishes. */
  lemma {:induction false} RemoveSpacesAllSpace(s: string)
    requires forall i :: 0 <= i < |s| ==> IsBase64Space(s[i])
    ensures RemoveSpaces(s) == ""
    decreases |s|
  {
    if |s| > 0 {
      RemoveSpacesAllSpace(s[1..]);
    }
  }

  /** Every character that is not one of the four survives the removal. */
  lemma {:induction false} RemoveSpacesKeeps(s: string, i: nat)
    requires i < |s| && !IsBase64Space(s[i])
    ensures s[i] in RemoveSpaces(s)
    decreases i
  {
    if i > 0 {
      RemoveSpacesKeeps(s[1..], i - 1);
    }
  }

  /** `String.Join(sep, parts)` for a one-character separator. */
  function JoinWith(parts: seq<string>, sep: char): string
  {
    if |parts| == 0 then ""
    else if |parts| == 1 then parts[0]
    else parts[0] + [sep] + JoinWith(parts[1..], sep)
  }

  /** `String.Join("", parts)`. */
  function Concat(parts: seq<string>): string
  {
    if |parts| == 0 then "" else parts[0] + Concat(parts[1..])
  }

  lemma {:induction false} ConcatAppend(a: seq<string>, b: seq<string>)
    ensures Concat(a + b) == Concat(a) + Concat(b)
    decreases |a|
  {
    if |a| > 0 {
      assert (a + b)[0] == a[0] && (a + b)[1..] == a[1..] + b;
      ConcatAppend(a[1..], b);
    } else {
      assert a + b == b;
    }
  }

  /** None of `lines` holds the separator. */
  predicate SeparatorFree(lines: seq<string>, sep: char) {
    forall i :: 0 <= i < |lines| ==> sep !in lines[i]
  }

  /** `s.Split(sep)`: the pieces between separators, empty pieces included. */
  function Split(s: string, sep: char): (r: seq<string>)
    ensures |r| >= 1
    ensures SeparatorFree(r, sep)
    decreases |s|
  {
    if |s| == 0 then [""]
    else
      var r := Split(s[1..], sep);
      if s[0] == sep then [""] + r else [[s[0]] + r[0]] + r[1..]
  }

  /** Joining the pieces with the separator gives the string back. */
  lemma {:induction false} JoinSplit(s: string, sep: char)
    ensures JoinWith(Split(s, sep), sep) == s
    decreases |s|
  {
    if |s| > 0 {
      var r := Split(s[1..], sep);
      JoinSplit(s[1..], sep);
      if s[0] == sep {
        assert ([""] + r)[1..] == r;
      } else {
        var first := [s[0]] + r[0];
        if |r| == 1 {
          assert Split(s, sep) == [first];
        } else {
          assert ([first] + r[1..])[1..] == r[1..];
          assert JoinWith(r, sep) == r[0] + [sep] + JoinWith(r[1..], sep);
        }
        assert s == [s[0]] + s[1..];
      }
    }
  }

  /** A separator-free string splits into itself. */
  lemma {:induction false} SplitNoSeparator(s: string, sep: char)
    requires sep !in s
    ensures Split(s, sep) == [s]
    decreases |s|
  {
    if |s| > 0 {
      SplitNoSeparator(s[1..], sep);
      assert s == [s[0]] + s[1..];
    }
  }

  /** Splitting peels off a leading separator-free piece. */
  lemma {:induction false} SplitCons(a: string, sep: char, rest: string)
    requires sep !in a
    ensures Split(a + [sep] + rest, sep) == [a] + Split(rest, sep)
    decreases |a|
  {
    var s := a + [sep] + rest;
    if |a| == 0 {
      assert s[1..] == rest;
    } else {
      assert s[1..] == a[1..] + [sep] + rest;
      SplitCons(a[1..], sep, rest);
      assert a == [a[0]] + a[1..];
    }
  }

  /** Splitting a joined list of separator-free pieces, followed by more text,
      gives the pieces back. */
  lemma {:induction false} SplitJoined(lines: seq<string>, sep: char, rest: string)
    requires |lines| >= 1 && SeparatorFree(lines, sep)
    ensures Split(JoinWith(lines, sep) + [sep] + rest, sep) == lines + Split(rest, sep)
    decreases |lines|
  {
    var head := lines[0];
    assert sep !in head;
    if |lines| == 1 {
      assert JoinWith(lines, sep) == head;
      SplitCons(head, sep, rest);
      assert lines == [head];
    } else {
      var more := lines[1..];
      var joinedMore := JoinWith(more, sep);
      var tail := joinedMore + [sep] + rest;
      assert JoinWith(lines, sep) == head + [sep] + joinedMore;
      assert JoinWith(lines, sep) + [sep] + rest == head + [sep] + tail;
      SplitCons(head, sep, tail);
      SeparatorFreeTail(lines, sep);
      SplitJoined(more, sep, rest);
      assert lines == [head] + more;
    }
  }

  lemma SeparatorFreeTail(lines: seq<string>, sep: char)
    requires |lines| >= 1 && SeparatorFree(lines, sep)
    ensures SeparatorFree(lines[1..], sep)
  {
    forall i | 0 <= i < |lines| - 1 ensures sep !in lines[1..][i] {
      assert lines[1..][i] == lines[i + 1];
    }
  }

  /** Blank text splits into blank pieces only. */
  lemma {:induction false} SplitBlank(t: string, sep: char)
    requires IsBlank(t)
    ensures forall k :: 0 <= k < |Split(t, sep)| ==> IsBlank(Split(t, sep)[k])
    decreases |t|
  {
    if |t| > 0 {
      var r := Split(t[1..], sep);
      SplitBlank(t[1..], sep);
      if t[0] != sep {
        assert IsBlank([t[0]] + r[0]) by {
          assert IsBlank(r[0]);
        }
      }
    }
  }

  /** A separator-free prefix stays at the front of the first piece, and the
      pieces after the first are those of the rest. */
  lemma {:induction false} SplitLeading(f: string, t: string, sep: char)
    requires sep !in f
    ensures var r := Split(f + t, sep);
      && |f| <= |r[0]| && r[0][..|f|] == f
      && r[1..] == Split(t, sep)[1..]
    decreases |f|
  {
    if |f| == 0 {
      assert f + t == t;
    } else {
      assert (f + t)[1..] == f[1..] + t;
      SplitLeading(f[1..], t, sep);
    }
  }

  /** ASCII letters to upper case, everything else unchanged. */
  function ToUpperAscii(s: string): (r: string)
    ensures |r| == |s|
    ensures forall i :: 0 <= i < |s| ==>
      r[i] == if 'a' <= s[i] <= 'z' then (s[i] as int - 32) as char else s[i]
  {
    if |s| == 0 then ""
    else [if 'a' <= s[0] <= 'z' then (s[0] as int - 32) as char else s[0]] + ToUpperAscii(s[1..])
  }

  /** Decimal rendering of a count, as string interpolation does. */
  function NatToString(n: nat): (r: string)
    ensures |r| >= 1
    ensures forall i :: 0 <= i < |r| ==> '0' <= r[i] <= '9'
  {
    var d := ['0' + (n % 10) as char];
    if n < 10 then d else NatToString(n / 10) + d
  }
}
