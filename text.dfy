/**
 * The pieces of Python's string handling the bot relies on: what counts as
 * white space, `str.strip()`, `str.split(sep)`, `str.split()`, `sep.join`,
 * and decimal digits (`str.isdigit`, `str.isdecimal`, `int`, `str`).
 */
module Text {

  /**
   * Python's `str.isspace()`; the `\s` class of a `str` regular expression
   * matches the same characters. Split at the end of ASCII.
   */
  predicate IsSpace(c: char)
  {
    if c < '\U{80}' then
      c == ' ' || '\t' <= c <= '\r' || '\U{1c}' <= c <= '\U{1f}'
    else
      (c == '\U{85}' || c == '\U{a0}' || c == '\U{1680}' || '\U{2000}' <= c <= '\U{200a}'
       || c == '\U{2028}' || c == '\U{2029}' || c == '\U{202f}' || c == '\U{205f}' || c == '\U{3000}')
  }

  predicate AllSpace(s: string)
  {
    forall i :: 0 <= i < |s| ==> IsSpace(s[i])
  }

  predicate NoSpace(s: string)
  {
    forall i :: 0 <= i < |s| ==> !IsSpace(s[i])
  }

  // ---------------------------------------------------------------- slices

  lemma DropDrop<T>(s: seq<T>, a: nat, b: nat)
    requires a + b <= |s|
    ensures s[a..][b..] == s[a + b..]
  {
  }

  // ---------------------------------------------------------------- strip

  /** `s.lstrip()`: `s` without its leading white space. */
  function StripStart(s: string): (r: string)
    ensures |r| <= |s|
  {
    if s != [] && IsSpace(s[0]) then StripStart(s[1..]) else s
  }

  /** `s.rstrip()`: `s` without its trailing white space. */
  function StripEnd(s: string): (r: string)
    ensures |r| <= |s|
  {
    if s != [] && IsSpace(s[|s| - 1]) then StripEnd(s[..|s| - 1]) else s
  }

  /** `s.strip()`. */
  function Strip(s: string): (r: string)
    ensures |r| <= |s|
  {
    StripEnd(StripStart(s))
  }

  /** `lstrip` removes a prefix of white space and stops at the first other character. */
  lemma {:induction false} StripStartIsSuffix(s: string)
    ensures StripStart(s) == s[|s| - |StripStart(s)|..]
    ensures AllSpace(s[..|s| - |StripStart(s)|])
    ensures StripStart(s) == [] || !IsSpace(StripStart(s)[0])
  {
    if s != [] && IsSpace(s[0]) {
      StripStartIsSuffix(s[1..]);
      assert s[..|s| - |StripStart(s)|] == [s[0]] + s[1..][..|s| - 1 - |StripStart(s)|];
    }
  }

  /** `rstrip` removes a suffix of white space and stops at the last other character. */
  lemma {:induction false} StripEndIsPrefix(s: string)
    ensures StripEnd(s) == s[..|StripEnd(s)|]
    ensures AllSpace(s[|StripEnd(s)|..])
    ensures StripEnd(s) == [] || !IsSpace(StripEnd(s)[|StripEnd(s)| - 1])
  {
    if s != [] && IsSpace(s[|s| - 1]) {
      var t := s[..|s| - 1];
      StripEndIsPrefix(t);
      assert s[|StripEnd(s)|..] == t[|StripEnd(t)|..] + [s[|s| - 1]];
    }
  }

  /**
   * `s.strip()` is the part of `s` between its leading and its trailing white
   * space: a slice of `s`, everything cut off is white space, and neither end
   * of the result is.
   */
  lemma StripIsSlice(s: string)
    ensures exists i: nat :: i + |Strip(s)| <= |s| && Strip(s) == s[i..i + |Strip(s)|]
              && AllSpace(s[..i]) && AllSpace(s[i + |Strip(s)|..])
    ensures Strip(s) == [] || (!IsSpace(Strip(s)[0]) && !IsSpace(Strip(s)[|Strip(s)| - 1]))
  {
    var t := StripStart(s);
    var r := Strip(s);
    StripStartIsSuffix(s);
    StripEndIsPrefix(t);
    var i := |s| - |t|;
    assert r == s[i..i + |r|];
    assert s[i + |r|..] == t[|r|..];
  }

  /** Stripping a string of white space only leaves nothing. */
  lemma {:induction false} StripAllSpace(s: string)
    requires AllSpace(s)
    ensures Strip(s) == []
  {
    if s != [] {
      assert AllSpace(s[1..]);
      StripAllSpace(s[1..]);
    }
  }

  lemma {:induction false} StripStartSpacePrefix(w: string, s: string)
    requires AllSpace(w)
    ensures StripStart(w + s) == StripStart(s)
  {
    if w != [] {
      assert IsSpace((w + s)[0]);
      assert (w + s)[1..] == w[1..] + s;
      assert AllSpace(w[1..]);
      StripStartSpacePrefix(w[1..], s);
    } else {
      assert w + s == s;
    }
  }

  /** White space in front of a string makes no difference to `strip`. */
  lemma StripSpacePrefix(w: string, s: string)
    requires AllSpace(w)
    ensures Strip(w + s) == Strip(s)
  {
    StripStartSpacePrefix(w, s);
  }

  /** White space behind a string makes no difference to `rstrip`. */
  lemma {:induction false} StripEndSpaceSuffix(s: string, w: string)
    requires AllSpace(w)
    ensures StripEnd(s + w) == StripEnd(s)
  {
    if w != [] {
      var v := w[..|w| - 1];
      assert IsSpace((s + w)[|s + w| - 1]);
      assert (s + w)[..|s + w| - 1] == s + v;
      assert AllSpace(v);
      StripEndSpaceSuffix(s, v);
    } else {
      assert s + w == s;
    }
  }

  /** A string that neither starts nor ends with white space is its own `strip`. */
  lemma StripUnpadded(s: string)
    requires s != [] && !IsSpace(s[0]) && !IsSpace(s[|s| - 1])
    ensures Strip(s) == s
  {
  }

  /** `strip` never introduces a character: one absent from `s` is absent from `s.strip()`. */
  lemma StripKeepsOut(s: string, c: char)
    requires c !in s
    ensures c !in Strip(s)
  {
    StripIsSlice(s);
  }

  // ---------------------------------------------------------------- split and join

  /** `s.split(sep)` for a one-character separator: the pieces between separators, empty ones included. */
  function SplitOn(s: string, sep: char): (r: seq<string>)
    ensures |r| >= 1
    ensures forall i :: 0 <= i < |r| ==> sep !in r[i]
  {
    if s == [] then [""]
    else
      var rest := SplitOn(s[1..], sep);
      if s[0] == sep then [""] + rest else [[s[0]] + rest[0]] + rest[1..]
  }

  /** `sep.join(parts)` for a one-character separator. */
  function Join(parts: seq<string>, sep: char): string
  {
    if parts == [] then ""
    else if |parts| == 1 then parts[0]
    else parts[0] + [sep] + Join(parts[1..], sep)
  }

  lemma {:induction false} SplitFirstPiece(a: string, sep: char, b: string)
    requires sep !in a
    ensures SplitOn(a + [sep] + b, sep) == [a] + SplitOn(b, sep)
  {
    if a == [] {
      assert ([] + [sep] + b)[1..] == b;
    } else {
      assert (a + [sep] + b)[0] == a[0] != sep;
      assert (a + [sep] + b)[1..] == a[1..] + [sep] + b;
      SplitFirstPiece(a[1..], sep, b);
      assert [a[0]] + a[1..] == a;
    }
  }

  lemma {:induction false} SplitNoSep(a: string, sep: char)
    requires sep !in a
    ensures SplitOn(a, sep) == [a]
  {
    if a != [] {
      assert a[0] != sep;
      SplitNoSep(a[1..], sep);
      assert [a[0]] + a[1..] == a;
    }
  }

  /** Splitting what `Join` produced gives back the pieces, provided none holds the separator. */
  lemma {:induction false} SplitJoin(parts: seq<string>, sep: char)
    requires parts != []
    requires forall i :: 0 <= i < |parts| ==> sep !in parts[i]
    ensures SplitOn(Join(parts, sep), sep) == parts
  {
    if |parts| == 1 {
      SplitNoSep(parts[0], sep);
    } else {
      SplitFirstPiece(parts[0], sep, Join(parts[1..], sep));
      SplitJoin(parts[1..], sep);
    }
  }

  /** Joining the pieces of a split gives back the string. */
  lemma {:induction false} JoinSplit(s: string, sep: char)
    ensures Join(SplitOn(s, sep), sep) == s
  {
    if s != [] {
      var rest := SplitOn(s[1..], sep);
      JoinSplit(s[1..], sep);
      if s[0] == sep {
        assert s == [sep] + s[1..];
      } else if |rest| == 1 {
        assert s == [s[0]] + s[1..];
      } else {
        assert rest == [rest[0]] + rest[1..];
        assert ([[s[0]] + rest[0]] + rest[1..])[1..] == rest[1..];
        assert s == [s[0]] + s[1..];
      }
    }
  }

  // ---------------------------------------------------------------- split on white space

  /** Length of the run of non-white-space characters that `s` starts with. */
  function WordLength(s: string): (n: nat)
    ensures n <= |s|
    ensures s != [] && !IsSpace(s[0]) ==> n >= 1
  {
    if s == [] || IsSpace(s[0]) then 0 else 1 + WordLength(s[1..])
  }

  /** `s.split()` with no argument: the maximal runs of non-white-space characters, in order. */
  function Words(s: string): (r: seq<string>)
    decreases |s|
  {
    var t := StripStart(s);
    StripStartIsSuffix(s);
    if t == [] then []
    else
      var n := WordLength(t);
      [t[..n]] + Words(t[n..])
  }

  lemma {:induction false} WordLengthOf(a: string, rest: string)
    requires NoSpace(a)
    requires rest == [] || IsSpace(rest[0])
    ensures WordLength(a + rest) == |a|
  {
    if a != [] {
      assert (a + rest)[1..] == a[1..] + rest;
      assert NoSpace(a[1..]);
      WordLengthOf(a[1..], rest);
    }
  }

  lemma WordsOfOne(b: string)
    requires b != [] && NoSpace(b)
    ensures Words(b) == [b]
  {
    assert StripStart(b) == b;
    WordLengthOf(b, []);
    assert b + [] == b;
    assert b[|b|..] == [];
  }

  lemma WordsFirst(a: string, rest: string)
    requires a != [] && NoSpace(a)
    requires rest != [] && IsSpace(rest[0])
    ensures Words(a + rest) == [a] + Words(rest)
  {
    var s := a + rest;
    assert StripStart(s) == s;
    WordLengthOf(a, rest);
    assert s[..|a|] == a;
    assert s[|a|..] == rest;
    assert StripStart(rest) == StripStart(rest[1..]);
  }

  lemma WordsAfterSpace(b: string)
    ensures Words(" " + b) == Words(b)
  {
    assert (" " + b)[1..] == b;
    assert StripStart(" " + b) == StripStart(b);
  }

  /** A command word, one space and an argument word split into exactly those two words. */
  lemma WordsOfTwo(a: string, b: string)
    requires a != [] && NoSpace(a) && b != [] && NoSpace(b)
    ensures Words(a + " " + b) == [a, b]
  {
    assert a + " " + b == a + (" " + b);
    WordsFirst(a, " " + b);
    WordsAfterSpace(b);
    WordsOfOne(b);
  }

  // ---------------------------------------------------------------- digits

  /**
   * Python's `str.isdecimal()` for one character: the characters `int()` reads
   * as digits. The ASCII digits and four other blocks of ten are modelled.
   */
  predicate IsDecimal(c: char)
  {
    '0' <= c <= '9' || '\U{660}' <= c <= '\U{669}' || '\U{6f0}' <= c <= '\U{6f9}'
    || '\U{966}' <= c <= '\U{96f}' || '\U{ff10}' <= c <= '\U{ff19}'
  }

  /**
   * Python's `str.isdigit()` for one character: every decimal digit, and also
   * the superscript, subscript and circled digits, which `int()` refuses.
   */
  predicate IsDigit(c: char)
  {
    IsDecimal(c) || c == '\U{b2}' || c == '\U{b3}' || c == '\U{b9}' || c == '\U{2070}'
    || '\U{2074}' <= c <= '\U{2079}' || '\U{2080}' <= c <= '\U{2089}' || '\U{2460}' <= c <= '\U{2468}'
  }

  /** The value `int()` gives a single decimal digit. */
  function DigitValue(c: char): (d: nat)
    requires IsDecimal(c)
    ensures d < 10
  {
    if c <= '9' then c as int - '0' as int
    else if c <= '\U{669}' then c as int - 0x660
    else if c <= '\U{6f9}' then c as int - 0x6f0
    else if c <= '\U{96f}' then c as int - 0x966
    else c as int - 0xff10
  }

  /** `s.isdecimal()`: non-empty and made of decimal digits only. */
  predicate AllDecimal(s: string)
  {
    s != [] && forall i :: 0 <= i < |s| ==> IsDecimal(s[i])
  }

  /** `s.isdigit()`: non-empty and made of digits only. */
  predicate AllDigits(s: string)
  {
    s != [] && forall i :: 0 <= i < |s| ==> IsDigit(s[i])
  }

  /** `int(s)` for a string of decimal digits. */
  function DecimalValue(s: string): (n: nat)
    requires forall i :: 0 <= i < |s| ==> IsDecimal(s[i])
  {
    if s == [] then 0 else 10 * DecimalValue(s[..|s| - 1]) + DigitValue(s[|s| - 1])
  }

  function AsciiDigit(d: nat): (c: char)
    requires d < 10
    ensures '0' <= c <= '9' && DigitValue(c) == d
  {
    ('0' as int + d) as char
  }

  /** `str(n)` for a natural number: ASCII digits, with no leading zero unless it is `"0"`. */
  function NatToString(n: nat): (s: string)
    ensures s != []
  {
    if n < 10 then [AsciiDigit(n)] else NatToString(n / 10) + [AsciiDigit(n % 10)]
  }

  /** `str(n)` is made of ASCII digits and has no leading zero unless it is `"0"`. */
  lemma {:induction false} NatToStringIsCanonical(n: nat)
    ensures forall i :: 0 <= i < |NatToString(n)| ==> '0' <= NatToString(n)[i] <= '9'
    ensures NatToString(n)[0] == '0' ==> n == 0 && NatToString(n) == "0"
  {
    if n >= 10 {
      NatToStringIsCanonical(n / 10);
    }
  }

  /** `int(str(n)) == n`. */
  lemma {:induction false} DecimalValueOfNatToString(n: nat)
    ensures forall i :: 0 <= i < |NatToString(n)| ==> IsDecimal(NatToString(n)[i])
    ensures DecimalValue(NatToString(n)) == n
  {
    var s := NatToString(n);
    if n >= 10 {
      DecimalValueOfNatToString(n / 10);
      assert s[..|s| - 1] == NatToString(n / 10);
    }
  }

  /** `str(i)` for any Python int: a minus sign in front of negative numbers. */
  function IntToString(i: int): (s: string)
    ensures s != []
  {
    if i < 0 then "-" + NatToString(-i) else NatToString(i)
  }

  lemma NatToStringInjective(a: nat, b: nat)
    requires NatToString(a) == NatToString(b)
    ensures a == b
  {
    DecimalValueOfNatToString(a);
    DecimalValueOfNatToString(b);
  }

  /** `str` is one-to-one on integers. */
  lemma IntToStringInjective(i: int, j: int)
    ensures IntToString(i) == IntToString(j) <==> i == j
  {
    if IntToString(i) == IntToString(j) {
      NatToStringIsCanonical(if i < 0 then -i else i);
      NatToStringIsCanonical(if j < 0 then -j else j);
      if i < 0 && j < 0 {
        assert NatToString(-i) == IntToString(i)[1..];
        assert NatToString(-j) == IntToString(j)[1..];
        NatToStringInjective(-i, -j);
      } else if i >= 0 && j >= 0 {
        NatToStringInjective(i, j);
      }
    }
  }
}
