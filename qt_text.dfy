/**
 * The pieces of Qt's string and integer library that the core relies on,
 * each given a small definition of its own: QChar::isSpace, QString::trimmed,
 * QString::toLower, QString::split, QString::toShort with base 16, the null
 * terminator that an out-of-range QString read returns, and the ordering that
 * QMap uses on QString keys.
 */
module QtText {

  /** Qt's `uint` and `quint16`, and a byte of an encoded string. */
  type Uint32 = x: int | 0 <= x < 0x1_0000_0000
  type Uint16 = x: int | 0 <= x < 0x1_0000
  type Byte = x: int | 0 <= x < 0x100

  datatype Option<T> = None | Some(value: T)

  /**
   * QChar::isSpace: the ASCII controls TAB..CR, the space, NEL, and the
   * Unicode separators (categories Zs, Zl, Zp).
   */
  predicate IsSpace(c: char)
  {
    ('\t' <= c <= '\r') || c == ' ' || c == '\U{85}' || c == '\U{A0}' ||
    c == '\U{1680}' || ('\U{2000}' <= c <= '\U{200A}') || c == '\U{2028}' ||
    c == '\U{2029}' || c == '\U{202F}' || c == '\U{205F}' || c == '\U{3000}'
  }

  /** Reading a QString at an index: past the end Qt yields its terminating '\0'. */
  function At(s: string, i: nat): char
  {
    if i < |s| then s[i] else '\0'
  }

  /** QString::left: the first n characters, or all of them when n is too large. */
  function Left(s: string, n: nat): (r: string)
    ensures |r| == if n <= |s| then n else |s|
    ensures r <= s
  {
    if n <= |s| then s[..n] else s
  }

  /** QString::remove(0, n): drops the first n characters, clamped at the end. */
  function DropFront(s: string, n: nat): (r: string)
    ensures Left(s, n) + r == s
  {
    if n <= |s| then s[n..] else []
  }

  function TrimStart(s: string): (r: string)
    ensures |r| <= |s|
    ensures r == [] || !IsSpace(r[0])
    ensures r != [] ==> r[0] == s[|s| - |r|] && r[|r| - 1] == s[|s| - 1]
    decreases |s|
  {
    if s != [] && IsSpace(s[0]) then TrimStart(s[1..]) else s
  }

  function TrimEnd(s: string): (r: string)
    ensures |r| <= |s|
    ensures r == [] || !IsSpace(r[|r| - 1])
    ensures r != [] ==> r[0] == s[0] && r[|r| - 1] == s[|r| - 1]
    decreases |s|
  {
    if s != [] && IsSpace(s[|s| - 1]) then TrimEnd(s[..|s| - 1]) else s
  }

  /**
   * QString::trimmed: the string without its leading and trailing white space.
   * The result neither starts nor ends with white space.
   */
  function Trim(s: string): (r: string)
    ensures |r| <= |s|
    ensures r == [] || (!IsSpace(r[0]) && !IsSpace(r[|r| - 1]))
  {
    TrimEnd(TrimStart(s))
  }

  /** TrimStart drops a prefix, and TrimEnd a suffix. */
  lemma {:induction false} TrimStartSuffix(s: string)
    ensures TrimStart(s) == s[|s| - |TrimStart(s)|..]
    decreases |s|
  {
    if s != [] && IsSpace(s[0]) {
      TrimStartSuffix(s[1..]);
    }
  }

  lemma {:induction false} TrimEndPrefix(s: string)
    ensures TrimEnd(s) == s[..|TrimEnd(s)|]
    decreases |s|
  {
    if s != [] && IsSpace(s[|s| - 1]) {
      TrimEndPrefix(s[..|s| - 1]);
    }
  }

  /** What TrimStart drops is white space. */
  lemma {:induction false} TrimStartBlank(s: string)
    ensures forall i :: 0 <= i < |s| - |TrimStart(s)| ==> IsSpace(s[i])
    decreases |s|
  {
    if s != [] && IsSpace(s[0]) {
      TrimStartBlank(s[1..]);
      forall i | 1 <= i < |s| - |TrimStart(s)|
        ensures IsSpace(s[i])
      {
        assert s[i] == s[1..][i - 1];
      }
    }
  }

  /** What TrimEnd drops is white space. */
  lemma {:induction false} TrimEndBlank(s: string)
    ensures forall i :: |TrimEnd(s)| <= i < |s| ==> IsSpace(s[i])
    decreases |s|
  {
    if s != [] && IsSpace(s[|s| - 1]) {
      TrimEndBlank(s[..|s| - 1]);
      forall i | |TrimEnd(s)| <= i < |s| - 1
        ensures IsSpace(s[i])
      {
        assert s[i] == s[..|s| - 1][i];
      }
    }
  }

  /** A string made only of white space trims to the empty string, and only such a string does. */
  lemma {:induction false} TrimEmptyIffBlank(s: string)
    ensures Trim(s) == [] <==> forall i :: 0 <= i < |s| ==> IsSpace(s[i])
  {
    var a := TrimStart(s);
    TrimStartBlank(s);
    TrimEndBlank(a);
    if Trim(s) == [] {
      assert a == [];
    }
  }

  /** Trimming is idempotent. */
  lemma {:induction false} TrimTwice(s: string)
    ensures Trim(Trim(s)) == Trim(s)
  {
    var r := Trim(s);
    if r != [] {
      assert TrimStart(r) == r;
      assert TrimEnd(r) == r;
    }
  }

  /** A string that neither starts nor ends with white space is its own trim. */
  lemma {:induction false} TrimmedAlready(s: string)
    requires s == [] || (!IsSpace(s[0]) && !IsSpace(s[|s| - 1]))
    ensures Trim(s) == s
  {
    if s != [] {
      assert TrimStart(s) == s;
      assert TrimEnd(s) == s;
    }
  }

  /** Padding on either side of a trimmed string is trimmed away. */
  lemma {:induction false} TrimPadded(pad: string, x: string, tail: string)
    requires forall i :: 0 <= i < |pad| ==> IsSpace(pad[i])
    requires forall i :: 0 <= i < |tail| ==> IsSpace(tail[i])
    requires x != [] && !IsSpace(x[0]) && !IsSpace(x[|x| - 1])
    ensures Trim(pad + x + tail) == x
  {
    TrimStartPadded(pad, x + tail);
    assert pad + x + tail == pad + (x + tail);
    TrimEndPadded(x, tail);
  }

  lemma {:induction false} TrimStartPadded(pad: string, y: string)
    requires forall i :: 0 <= i < |pad| ==> IsSpace(pad[i])
    requires y != [] && !IsSpace(y[0])
    ensures TrimStart(pad + y) == y
    decreases |pad|
  {
    if pad != [] {
      assert (pad + y)[1..] == pad[1..] + y;
      TrimStartPadded(pad[1..], y);
    } else {
      assert pad + y == y;
    }
  }

  lemma {:induction false} TrimEndPadded(x: string, tail: string)
    requires forall i :: 0 <= i < |tail| ==> IsSpace(tail[i])
    requires x != [] && !IsSpace(x[|x| - 1])
    ensures TrimEnd(x + tail) == x
    decreases |tail|
  {
    if tail != [] {
      var t := tail[..|tail| - 1];
      assert (x + tail)[..|x + tail| - 1] == x + t;
      TrimEndPadded(x, t);
    } else {
      assert x + tail == x;
    }
  }

  /** QChar::toLower, restricted to the ASCII letters. */
  function ToLowerChar(c: char): char
  {
    if 'A' <= c <= 'Z' then (c as int + 32) as char else c
  }

  /** QString::toLower, character by character. */
  function ToLower(s: string): (r: string)
    ensures |r| == |s|
    ensures forall i :: 0 <= i < |s| ==> r[i] == ToLowerChar(s[i])
  {
    seq(|s|, i requires 0 <= i < |s| => ToLowerChar(s[i]))
  }

  /** Index of the first occurrence of c in s, or |s| when there is none. */
  function IndexOf(s: string, c: char): (i: nat)
    ensures i <= |s|
    ensures i < |s| ==> s[i] == c
    ensures forall j :: 0 <= j < i ==> s[j] != c
    decreases |s|
  {
    if s == [] then 0 else if s[0] == c then 0 else 1 + IndexOf(s[1..], c)
  }

  /** QString::split(sep) keeping empty parts: the pieces between the separators. */
  function Split(s: string, sep: char): (parts: seq<string>)
    ensures |parts| >= 1
    decreases |s|
  {
    var i := IndexOf(s, sep);
    if i == |s| then [s] else [s[..i]] + Split(s[i + 1..], sep)
  }

  /** Splitting gives two or more parts exactly when the separator occurs, and the first part ends before it. */
  lemma {:induction false} SplitParts(s: string, sep: char)
    ensures |Split(s, sep)| >= 2 <==> sep in s
    ensures Split(s, sep)[0] == s[..IndexOf(s, sep)]
  {
    var i := IndexOf(s, sep);
    if sep in s {
      var j :| 0 <= j < |s| && s[j] == sep;
      assert i <= j;
    }
  }

  function HexDigit(c: char): Option<nat>
  {
    if '0' <= c <= '9' then Some(c as int - '0' as int)
    else if 'a' <= c <= 'f' then Some(c as int - 'a' as int + 10)
    else if 'A' <= c <= 'F' then Some(c as int - 'A' as int + 10)
    else None
  }

  /** The value of a string of hexadecimal digits, most significant first; None if any character is not one. */
  function HexValue(s: string): Option<nat>
    decreases |s|
  {
    if s == [] then Some(0)
    else
      match (HexValue(s[..|s| - 1]), HexDigit(s[|s| - 1]))
      case (Some(high), Some(low)) => Some(high * 16 + low)
      case _ => None
  }

  /**
   * QString::toShort(&ok, 16) followed by the conversion to quint16. White
   * space around the number is ignored; then come an optional sign, an
   * optional `0x` or `0X`, and one or more hexadecimal digits whose value
   * fits a signed 16-bit integer. A negative value wraps to its two's
   * complement.
   */
  function ToShortHex(s: string): (r: Option<Uint16>)
  {
    var t := Trim(s);
    var negative := |t| > 0 && t[0] == '-';
    var unsigned := if |t| > 0 && (t[0] == '-' || t[0] == '+') then t[1..] else t;
    var digits := if |unsigned| >= 2 && unsigned[0] == '0' && (unsigned[1] == 'x' || unsigned[1] == 'X') then unsigned[2..] else unsigned;
    if digits == [] then None
    else
      match HexValue(digits)
      case None => None
      case Some(v) =>
        var signed := if negative then -(v as int) else v as int;
        if -0x8000 <= signed <= 0x7FFF then Some(if signed < 0 then signed + 0x1_0000 else signed)
        else None
  }

  /**
   * Hexadecimal digits (no sign) are accepted exactly when their value is
   * at most 7FFF: toShort rejects the upper half of the quint16 range. So
   * are the same digits after `0x`, or after or before white space.
   */
  lemma {:induction false} HexForms(d: string)
    requires d != [] && HexValue(d).Some?
    ensures d[0] != '-' && d[0] != '+'
    ensures var expected := if HexValue(d).value <= 0x7FFF then Some(HexValue(d).value) else None;
      && ToShortHex(d) == expected
      && ToShortHex("0x" + d) == expected
      && ToShortHex(" " + d) == expected
      && ToShortHex(d + " ") == expected
  {
    HexValueDigits(d);
    assert HexDigit(d[0]).Some? && HexDigit(d[|d| - 1]).Some?;
    TrimmedAlready(d);
    var x := "0x" + d;
    assert x[|x| - 1] == d[|d| - 1];
    TrimmedAlready(x);
    assert x[2..] == d;
    var front := " " + d;
    assert front[1..] == d;
    assert TrimStart(front) == d;
    var back := d + " ";
    assert back[..|back| - 1] == d;
    assert TrimStart(back) == back;
    assert TrimEnd(back) == d;
  }

  /** Four hexadecimal digits (no sign) are accepted exactly when their value is at most 7FFF. */
  lemma {:induction false} FourHexDigits(s: string)
    requires |s| == 4 && HexValue(s).Some?
    ensures s[0] != '-' && s[0] != '+'
    ensures ToShortHex(s) == if HexValue(s).value <= 0x7FFF then Some(HexValue(s).value) else None
  {
    HexForms(s);
  }

  /** Every character of a string with a hex value is a hex digit. */
  lemma {:induction false} HexValueDigits(s: string)
    requires HexValue(s).Some?
    ensures forall i :: 0 <= i < |s| ==> HexDigit(s[i]).Some?
    decreases |s|
  {
    if s != [] {
      HexValueDigits(s[..|s| - 1]);
      assert forall i :: 0 <= i < |s| - 1 ==> s[..|s| - 1][i] == s[i];
    }
  }

  /** Lexicographic order on strings by character code, as QMap orders QString keys. */
  predicate StrLess(a: string, b: string)
    decreases |a|
  {
    if a == [] then b != []
    else if b == [] then false
    else if a[0] != b[0] then a[0] < b[0]
    else StrLess(a[1..], b[1..])
  }

  lemma {:induction false} StrLessIrreflexive(a: string)
    ensures !StrLess(a, a)
    decreases |a|
  {
    if a != [] {
      StrLessIrreflexive(a[1..]);
    }
  }

  lemma {:induction false} StrLessTransitive(a: string, b: string, c: string)
    requires StrLess(a, b) && StrLess(b, c)
    ensures StrLess(a, c)
    decreases |a|
  {
    if a != [] && b != [] && c != [] && a[0] == b[0] && b[0] == c[0] {
      StrLessTransitive(a[1..], b[1..], c[1..]);
    }
  }

  lemma {:induction false} StrLessTotal(a: string, b: string)
    requires a != b
    ensures StrLess(a, b) || StrLess(b, a)
    decreases |a|
  {
    if a != [] && b != [] && a[0] == b[0] {
      assert a == [a[0]] + a[1..] && b == [b[0]] + b[1..];
      StrLessTotal(a[1..], b[1..]);
    }
  }

  lemma {:induction false} StrLessAsymmetric(a: string, b: string)
    requires StrLess(a, b)
    ensures !StrLess(b, a)
  {
    if StrLess(b, a) {
      StrLessTransitive(a, b, a);
      StrLessIrreflexive(a);
    }
  }
}
