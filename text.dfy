/** The JavaScript string operations the source relies on: `trim`,
    `split` on one character, `toString` of an integer, `padStart`, and
    `parseInt` in base ten. A `char` is a Unicode scalar value, where
    JavaScript counts UTF-16 code units; the two agree on every character
    below U+10000. */
module Text {
  import opened Wrappers

  /** The characters `String.prototype.trim` removes (white space and line terminators). */
  predicate IsWhitespace(c: char) {
    c == ' ' || c == '\t' || c == '\n' || c == '\r' || c == '\U{B}' || c == '\U{C}'
    || c == '\U{A0}' || c == '\U{1680}' || ('\U{2000}' <= c <= '\U{200A}')
    || c == '\U{2028}' || c == '\U{2029}' || c == '\U{202F}' || c == '\U{205F}'
    || c == '\U{3000}' || c == '\U{FEFF}'
  }

  predicate AllWhitespace(s: string) {
    forall i :: 0 <= i < |s| ==> IsWhitespace(s[i])
  }

  /** Only white space lies at the positions `lo..hi` of `s`. */
  predicate WhitespaceIn(s: string, lo: int, hi: int) {
    0 <= lo <= hi <= |s| && forall k :: lo <= k < hi ==> IsWhitespace(s[k])
  }

  /** Removes the leading white space. */
  function TrimStart(s: string): (r: string)
    ensures |r| <= |s| && r == s[|s| - |r|..]
    ensures r == [] || !IsWhitespace(r[0])
    ensures WhitespaceIn(s, 0, |s| - |r|)
  {
    if s != [] && IsWhitespace(s[0]) then
      var r := TrimStart(s[1..]);
      assert forall k :: 1 <= k < |s| ==> s[k] == s[1..][k - 1];
      r
    else s
  }

  /** Removes the trailing white space. */
  function TrimEnd(s: string): (r: string)
    ensures |r| <= |s| && r == s[..|r|]
    ensures r == [] || !IsWhitespace(r[|r| - 1])
    ensures WhitespaceIn(s, |r|, |s|)
  {
    if s != [] && IsWhitespace(s[|s| - 1]) then
      var r := TrimEnd(s[..|s| - 1]);
      assert forall k :: 0 <= k < |s| - 1 ==> s[k] == s[..|s| - 1][k];
      r
    else s
  }

  /** `s.trim()`: white space cut from both ends. */
  function Trim(s: string): (r: string)
    ensures |r| <= |s|
    ensures r == [] || (!IsWhitespace(r[0]) && !IsWhitespace(r[|r| - 1]))
  {
    TrimEnd(TrimStart(s))
  }

  /** `r` is `s[i..j]` and only white space lies outside it. */
  predicate WhitespaceAround(s: string, r: string, i: int, j: int) {
    0 <= i <= j <= |s| && r == s[i..j] && WhitespaceIn(s, 0, i) && WhitespaceIn(s, j, |s|)
  }

  /** Where the trimmed string starts. */
  function TrimOffset(s: string): nat {
    |s| - |TrimStart(s)|
  }

  /** A prefix of a suffix of `s`, with white space after it, is a middle slice of `s`. */
  lemma PrefixOfSuffix(s: string, i: int, a: string, r: string)
    requires 0 <= i <= |s| && a == s[i..] && |r| <= |a| && r == a[..|r|] && WhitespaceIn(a, |r|, |a|)
    ensures r == s[i..i + |r|] && WhitespaceIn(s, i + |r|, |s|)
  {
    forall k | i + |r| <= k < |s| ensures IsWhitespace(s[k]) {
      assert s[k] == a[k - i];
    }
  }

  /** What `trim` keeps is a middle slice with only white space around it. */
  lemma TrimIsSlice(s: string)
    ensures TrimOffset(s) + |Trim(s)| <= |s|
    ensures WhitespaceAround(s, Trim(s), TrimOffset(s), TrimOffset(s) + |Trim(s)|)
  {
    var a := TrimStart(s);
    var r := TrimEnd(a);
    PrefixOfSuffix(s, |s| - |a|, a, r);
  }

  /** Trimming leaves nothing exactly when the string is all white space. */
  lemma TrimEmptyIff(s: string)
    ensures Trim(s) == [] <==> AllWhitespace(s)
  {
    TrimIsSlice(s);
    var i := TrimOffset(s);
    if Trim(s) != [] {
      assert Trim(s)[0] == s[i];
      assert !IsWhitespace(s[i]);
    } else {
      assert forall k :: 0 <= k < |s| ==> (k < i || i <= k) && IsWhitespace(s[k]);
    }
  }

  /** Trimming twice is trimming once. */
  lemma TrimIdempotent(s: string)
    ensures Trim(Trim(s)) == Trim(s)
  {
    var t := Trim(s);
    assert TrimStart(t) == t;
    assert TrimEnd(t) == t;
  }

  /** `TrimStart` stops at the first character that is not white space. */
  lemma {:induction false} TrimStartAt(s: string, k: int)
    requires WhitespaceIn(s, 0, k) && (k == |s| || !IsWhitespace(s[k]))
    ensures TrimStart(s) == s[k..]
  {
    if k > 0 {
      assert IsWhitespace(s[0]);
      var t := s[1..];
      assert forall n :: 0 <= n < k - 1 ==> t[n] == s[n + 1];
      assert k - 1 == |t| || t[k - 1] == s[k];
      TrimStartAt(t, k - 1);
      assert t[k - 1..] == s[k..];
    }
  }

  /** `TrimEnd` stops after the last character that is not white space. */
  lemma {:induction false} TrimEndAt(s: string, k: int)
    requires WhitespaceIn(s, k, |s|) && (k == 0 || !IsWhitespace(s[k - 1]))
    ensures TrimEnd(s) == s[..k]
    decreases |s| - k
  {
    if k < |s| {
      assert IsWhitespace(s[|s| - 1]);
      var p := s[..|s| - 1];
      assert forall n :: k <= n < |p| ==> p[n] == s[n];
      assert k == 0 || p[k - 1] == s[k - 1];
      TrimEndAt(p, k);
      assert p[..k] == s[..k];
    } else {
      assert s[..k] == s;
    }
  }

  /** White space after `j` is white space after `j - i` in the suffix from `i`. */
  lemma SuffixKeepsTail(s: string, i: int, j: int)
    requires 0 <= i <= j <= |s| && WhitespaceIn(s, j, |s|)
    ensures WhitespaceIn(s[i..], j - i, |s| - i) && s[i..][..j - i] == s[i..j]
  {
    forall k | j - i <= k < |s| - i ensures IsWhitespace(s[i..][k]) {
      assert s[i..][k] == s[k + i];
    }
  }

  /** A slice with only white space around it and none at its ends is the trimmed string. */
  lemma TrimUnique(s: string, r: string, i: int, j: int)
    requires WhitespaceAround(s, r, i, j)
    requires r == [] || (!IsWhitespace(r[0]) && !IsWhitespace(r[|r| - 1]))
    ensures Trim(s) == r
  {
    if r == [] {
      assert WhitespaceIn(s, 0, |s|) by {
        assert forall k :: 0 <= k < |s| ==> (k < i || j <= k) && IsWhitespace(s[k]);
      }
      TrimStartAt(s, |s|);
    } else {
      assert s[i] == r[0];
      TrimStartAt(s, i);
      SuffixKeepsTail(s, i, j);
      var a := s[i..];
      assert a[j - i - 1] == r[|r| - 1];
      TrimEndAt(a, j - i);
    }
  }

  /** Padding moves the slice a trimmed string came from but keeps white space around it. */
  lemma PaddedAround(s: string, r: string, i: int, j: int, pad: string)
    requires WhitespaceAround(s, r, i, j) && AllWhitespace(pad)
    ensures WhitespaceAround(pad + s + pad, r, |pad| + i, |pad| + j)
  {
    var t := pad + s + pad;
    var n := |pad|;
    assert forall k :: 0 <= k < n ==> t[k] == pad[k];
    assert forall k :: n <= k < n + |s| ==> t[k] == s[k - n];
    assert forall k :: n + |s| <= k < |t| ==> t[k] == pad[k - n - |s|];
    assert t[n + i..n + j] == s[i..j];
  }

  /** White space added at both ends is trimmed away again. */
  lemma TrimPadded(s: string, pad: string)
    requires AllWhitespace(pad)
    ensures Trim(pad + s + pad) == Trim(s)
  {
    var r := Trim(s);
    var i := TrimOffset(s);
    var j := i + |r|;
    TrimIsSlice(s);
    PaddedAround(s, r, i, j, pad);
    TrimUnique(pad + s + pad, r, |pad| + i, |pad| + j);
  }

  /** The position of the first `c` in `s`. */
  function IndexOf(s: string, c: char): (i: nat)
    requires c in s
    ensures i < |s| && s[i] == c && c !in s[..i]
  {
    if s[0] == c then 0 else
      assert c in s[1..] by { var k :| 0 <= k < |s| && s[k] == c; assert s[1..][k - 1] == c; }
      var i := IndexOf(s[1..], c);
      assert s[..i + 1] == [s[0]] + s[1..][..i];
      i + 1
  }

  /** `s.split(sep)` for a one-character separator. */
  function Split(s: string, sep: char): (r: seq<string>)
    ensures |r| >= 1
    ensures forall k :: 0 <= k < |r| ==> sep !in r[k]
    decreases |s|
  {
    if sep !in s then [s]
    else
      var i := IndexOf(s, sep);
      [s[..i]] + Split(s[i + 1..], sep)
  }

  /** `parts.join(sep)`. */
  function Join(parts: seq<string>, sep: char): string
    requires |parts| >= 1
  {
    if |parts| == 1 then parts[0] else parts[0] + [sep] + Join(parts[1..], sep)
  }

  /** Splitting loses nothing: joining the pieces gives the string back. */
  lemma {:induction false} JoinSplit(s: string, sep: char)
    ensures Join(Split(s, sep), sep) == s
    decreases |s|
  {
    if sep in s {
      var i := IndexOf(s, sep);
      var rest := s[i + 1..];
      var tail := Split(rest, sep);
      JoinSplit(rest, sep);
      var parts := [s[..i]] + tail;
      assert Split(s, sep) == parts;
      assert |parts| > 1 && parts[0] == s[..i] && parts[1..] == tail;
      assert Join(parts, sep) == s[..i] + [sep] + Join(tail, sep);
      assert s == s[..i] + [sep] + rest;
    }
  }

  /** Two pieces without the separator, joined by it, split back into those pieces. */
  lemma SplitPair(a: string, b: string, sep: char)
    requires sep !in a && sep !in b
    ensures Split(a + [sep] + b, sep) == [a, b]
  {
    var s := a + [sep] + b;
    assert s[|a|] == sep;
    var i := IndexOf(s, sep);
    assert s[..i] == a;
    assert s[i + 1..] == b;
  }

  // ---------------------------------------------------------------- numbers

  predicate IsDigit(c: char) { '0' <= c <= '9' }

  predicate AllDigits(s: string) { forall i :: 0 <= i < |s| ==> IsDigit(s[i]) }

  function DigitChar(d: nat): (c: char)
    requires d < 10
    ensures IsDigit(c) && c as int - '0' as int == d
  {
    ('0' as int + d) as char
  }

  function DigitValue(c: char): (d: nat)
    requires IsDigit(c)
    ensures d < 10
  {
    c as int - '0' as int
  }

  /** The number a string of decimal digits denotes. */
  function DigitsValue(s: string): nat
    requires AllDigits(s)
  {
    if s == [] then 0 else DigitsValue(s[..|s| - 1]) * 10 + DigitValue(s[|s| - 1])
  }

  /** `n.toString()` for a non-negative integer. */
  function NatToString(n: nat): (r: string)
    ensures |r| >= 1 && AllDigits(r)
    ensures r[0] == '0' ==> n == 0
  {
    if n < 10 then [DigitChar(n)] else NatToString(n / 10) + [DigitChar(n % 10)]
  }

  /** The decimal digits of `n` denote `n`. */
  lemma {:induction false} NatToStringValue(n: nat)
    ensures DigitsValue(NatToString(n)) == n
  {
    if n >= 10 {
      NatToStringValue(n / 10);
      var s := NatToString(n);
      assert s[..|s| - 1] == NatToString(n / 10);
    }
  }

  /** `i.toString()`: a minus sign before the digits of a negative number. */
  function IntToString(i: int): (r: string)
    ensures i >= 0 ==> r == NatToString(i)
    ensures i < 0 ==> r == "-" + NatToString(-i)
  {
    if i < 0 then "-" + NatToString(-i) else NatToString(i)
  }

  function Repeat(c: char, n: nat): (r: string)
    ensures |r| == n && forall k :: 0 <= k < n ==> r[k] == c
  {
    if n == 0 then [] else [c] + Repeat(c, n - 1)
  }

  /** `s.padStart(width, c)`. */
  function PadStart(s: string, width: nat, c: char): (r: string)
    ensures |r| == if |s| < width then width else |s|
    ensures r == Repeat(c, |r| - |s|) + s
  {
    if |s| >= width then
      assert Repeat(c, 0) == [];
      s
    else Repeat(c, width - |s|) + s
  }

  /** Leading zeros do not change the value of a digit string. */
  lemma {:induction false} LeadingZerosValue(n: nat, s: string)
    requires AllDigits(s)
    ensures AllDigits(Repeat('0', n) + s)
    ensures DigitsValue(Repeat('0', n) + s) == DigitsValue(s)
    decreases n, |s|
  {
    var z := Repeat('0', n);
    if s == [] {
      assert z + s == z;
      if n > 0 {
        assert z[..|z| - 1] == Repeat('0', n - 1) + [];
        LeadingZerosValue(n - 1, []);
      }
    } else {
      var t := z + s;
      assert t[..|t| - 1] == z + s[..|s| - 1];
      LeadingZerosValue(n, s[..|s| - 1]);
    }
  }

  /** The longest prefix of `s` made of digits. */
  function DigitPrefix(s: string): (r: string)
    ensures |r| <= |s| && AllDigits(r) && r == s[..|r|]
    ensures |r| == |s| || !IsDigit(s[|r|])
  {
    if s != [] && IsDigit(s[0]) then
      var r := DigitPrefix(s[1..]);
      assert [s[0]] + r == s[..|r| + 1];
      [s[0]] + r
    else []
  }

  /** The digit prefix of a digit string followed by a non-digit is that digit string. */
  lemma {:induction false} DigitPrefixOf(d: string, rest: string)
    requires AllDigits(d)
    requires rest == [] || !IsDigit(rest[0])
    ensures DigitPrefix(d + rest) == d
  {
    if d != [] {
      assert (d + rest)[1..] == d[1..] + rest;
      DigitPrefixOf(d[1..], rest);
    } else {
      assert d + rest == rest;
    }
  }

  /** `parseInt(s, 10)`: after leading white space and an optional sign, the
      value of the leading digits; none (NaN) when there are no digits. */
  function ParseInt(s: string): (r: Option<int>)
    ensures r.None? <==> DigitPrefix(UnsignedPart(TrimStart(s))) == []
  {
    var t := TrimStart(s);
    var digits := DigitPrefix(UnsignedPart(t));
    if digits == [] then None
    else
      var v: int := DigitsValue(digits);
      if t[0] == '-' then Some(-v) else Some(v)
  }

  function UnsignedPart(t: string): string {
    if t != [] && (t[0] == '-' || t[0] == '+') then t[1..] else t
  }

  lemma DigitIsNotWhitespace(c: char)
    requires IsDigit(c)
    ensures !IsWhitespace(c)
  {
  }

  /** `parseInt` reads back the digits `toString` writes, whatever follows them. */
  lemma ParseIntOfDigits(d: string, rest: string)
    requires AllDigits(d) && d != []
    requires rest == [] || !IsDigit(rest[0])
    ensures ParseInt(d + rest) == Some(DigitsValue(d))
  {
    var s := d + rest;
    assert s[0] == d[0];
    DigitIsNotWhitespace(s[0]);
    assert TrimStart(s) == s;
    assert UnsignedPart(s) == s;
    DigitPrefixOf(d, rest);
  }
}
