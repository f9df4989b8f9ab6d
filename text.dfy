/**
 * String helpers the rest of the model is written with: decimal rendering and
 * zero padding (`String(n)`, `padStart`), JavaScript's `split`, `trim` and
 * `parseInt`, and Python's `int()` and `str.lower()` on the inputs that matter.
 */
module Text {
  import opened Wrappers

  // ----- Digits and numerals -----

  predicate IsDigit(c: char) { '0' <= c <= '9' }

  predicate AllDigits(s: string) { forall i :: 0 <= i < |s| ==> IsDigit(s[i]) }

  /** Value of a digit or a letter in a numeral of radix up to 36; 36 for any other character. */
  function DigitValue(c: char): (v: nat)
    ensures v <= 36
    ensures IsDigit(c) ==> v == c as int - '0' as int
    ensures IsDigit(c) <==> v < 10
  {
    if '0' <= c <= '9' then c as int - '0' as int
    else if 'a' <= c <= 'z' then c as int - 'a' as int + 10
    else if 'A' <= c <= 'Z' then c as int - 'A' as int + 10
    else 36
  }

  predicate IsRadixDigit(c: char, radix: nat) { DigitValue(c) < radix }

  predicate AllRadixDigits(s: string, radix: nat)
  {
    forall i :: 0 <= i < |s| ==> IsRadixDigit(s[i], radix)
  }

  function DigitChar(d: nat): (c: char)
    requires d < 10
    ensures IsDigit(c) && DigitValue(c) == d
  {
    ('0' as int + d) as char
  }

  /** Value of a numeral written most significant digit first. */
  function NumeralValue(s: string, radix: nat): nat
    requires AllRadixDigits(s, radix)
    decreases |s|
  {
    if s == [] then 0 else NumeralValue(s[..|s| - 1], radix) * radix + DigitValue(s[|s| - 1])
  }

  function DecimalValue(s: string): nat
    requires AllDigits(s)
  {
    NumeralValue(s, 10)
  }

  /** Decimal digits of n without leading zeros: JavaScript's `String(n)`, Python's `str(n)`. */
  function NatToDecimal(n: nat): (r: string)
    ensures 1 <= |r| && AllDigits(r)
    ensures |r| == 1 <==> n < 10
    decreases n
  {
    if n < 10 then [DigitChar(n)] else NatToDecimal(n / 10) + [DigitChar(n % 10)]
  }

  /** Reading the rendered digits back gives the number. */
  lemma {:induction false} DecimalRoundTrip(n: nat)
    ensures DecimalValue(NatToDecimal(n)) == n
  {
    if n >= 10 {
      var r := NatToDecimal(n);
      assert r[..|r| - 1] == NatToDecimal(n / 10);
      assert DigitValue(r[|r| - 1]) == n % 10;
      DecimalRoundTrip(n / 10);
      assert DecimalValue(r) == DecimalValue(NatToDecimal(n / 10)) * 10 + n % 10;
      assert (n / 10) * 10 + n % 10 == n;
    } else {
      var r := NatToDecimal(n);
      assert r[..0] == [];
      assert DecimalValue(r) == NumeralValue(r[..0], 10) * 10 + DigitValue(r[0]);
    }
  }

  function Pow10(k: nat): (p: nat)
    ensures p >= 1
  {
    if k == 0 then 1 else 10 * Pow10(k - 1)
  }

  /** A number below 10^k takes at most k digits. */
  lemma {:induction false} DecimalWidth(n: nat, k: nat)
    requires 1 <= k && n < Pow10(k)
    ensures |NatToDecimal(n)| <= k
    decreases k
  {
    if n >= 10 {
      DecimalWidth(n / 10, k - 1);
    }
  }

  /** A negative number is rendered with a leading minus sign. */
  function IntToDecimal(i: int): (r: string)
    ensures 1 <= |r|
    ensures i < 0 <==> r[0] == '-'
  {
    if i < 0 then "-" + NatToDecimal(-i) else NatToDecimal(i)
  }

  function Repeat(c: char, k: nat): (r: string)
    ensures |r| == k && forall i :: 0 <= i < k ==> r[i] == c
  {
    seq(k, _ => c)
  }

  /** `s.padStart(width, fill)` for a one-character fill: it widens and never truncates. */
  function PadStart(s: string, width: nat, fill: char): (r: string)
    ensures |r| == if |s| < width then width else |s|
    ensures r[|r| - |s|..] == s
    ensures forall i :: 0 <= i < |r| - |s| ==> r[i] == fill
  {
    if |s| < width then Repeat(fill, width - |s|) + s else s
  }

  /** `String(n).padStart(2, '0')`. */
  function Pad2(n: nat): string
  {
    PadStart(NatToDecimal(n), 2, '0')
  }

  lemma {:induction false} ZerosValue(k: nat)
    ensures AllDigits(Repeat('0', k)) && DecimalValue(Repeat('0', k)) == 0
  {
    if k > 0 {
      assert Repeat('0', k)[..k - 1] == Repeat('0', k - 1);
      ZerosValue(k - 1);
    }
  }

  /** Leading zeros do not change the value of a numeral. */
  lemma {:induction false} LeadingZeros(k: nat, s: string)
    requires AllDigits(s)
    ensures AllDigits(Repeat('0', k) + s)
    ensures DecimalValue(Repeat('0', k) + s) == DecimalValue(s)
    decreases |s|
  {
    var z := Repeat('0', k);
    ZerosValue(k);
    if s == [] {
      assert z + s == z;
    } else {
      LeadingZeros(k, s[..|s| - 1]);
      assert (z + s)[..|z + s| - 1] == z + s[..|s| - 1];
    }
  }

  /** Zero padding keeps a numeral's value. */
  lemma PadDigitsValue(s: string, width: nat)
    requires AllDigits(s)
    ensures AllDigits(PadStart(s, width, '0'))
    ensures DecimalValue(PadStart(s, width, '0')) == DecimalValue(s)
  {
    if |s| < width {
      LeadingZeros(width - |s|, s);
    }
  }

  /** Below 100, `Pad2` gives exactly two digits that read back as n. */
  lemma Pad2Digits(n: nat)
    requires n < 100
    ensures |Pad2(n)| == 2 && AllDigits(Pad2(n)) && DecimalValue(Pad2(n)) == n
  {
    DecimalRoundTrip(n);
    PadDigitsValue(NatToDecimal(n), 2);
    if n >= 10 {
      assert |NatToDecimal(n / 10)| == 1;
    }
  }

  /** From 100 on, `Pad2` leaves the decimal rendering as it is. */
  lemma Pad2Wide(n: nat)
    requires n >= 100
    ensures Pad2(n) == NatToDecimal(n)
  {
    assert NatToDecimal(n) == NatToDecimal(n / 10) + [DigitChar(n % 10)];
  }

  // ----- JavaScript's split -----

  /** `s.split(sep)` for a one-character separator: the fields between separators, in order. */
  function Split(s: string, sep: char): (r: seq<string>)
    ensures |r| >= 1
    decreases |s|
  {
    if s == [] then [""]
    else if s[0] == sep then [""] + Split(s[1..], sep)
    else
      var rest := Split(s[1..], sep);
      [[s[0]] + rest[0]] + rest[1..]
  }

  /** Joining fields with the separator: the inverse of `Split`. */
  function Join(fields: seq<string>, sep: char): string
    requires |fields| >= 1
    decreases |fields|
  {
    if |fields| == 1 then fields[0] else fields[0] + [sep] + Join(fields[1..], sep)
  }

  /** Split fields never contain the separator, and joining them gives the input back. */
  lemma {:induction false} SplitJoin(s: string, sep: char)
    ensures forall k :: 0 <= k < |Split(s, sep)| ==> sep !in Split(s, sep)[k]
    ensures Join(Split(s, sep), sep) == s
    decreases |s|
  {
    if s != [] {
      SplitJoin(s[1..], sep);
      var rest := Split(s[1..], sep);
      if s[0] == sep {
        assert Split(s, sep)[1..] == rest;
        assert s == [] + [sep] + s[1..];
      } else {
        var r := Split(s, sep);
        assert r[0] == [s[0]] + rest[0];
        assert forall k :: 1 <= k < |r| ==> r[k] == rest[k];
        if |rest| == 1 {
          assert s == [s[0]] + rest[0];
        } else {
          assert r[1..] == rest[1..];
          assert Join(r, sep) == [s[0]] + rest[0] + [sep] + Join(rest[1..], sep);
        }
      }
    }
  }

  /** A string without the separator is one field. */
  lemma {:induction false} SplitNoSeparator(s: string, sep: char)
    requires sep !in s
    ensures Split(s, sep) == [s]
    decreases |s|
  {
    if s != [] {
      SplitNoSeparator(s[1..], sep);
      assert [s[0]] + s[1..] == s;
    }
  }

  /** A separator-free prefix followed by the separator is the first field. */
  lemma {:induction false} SplitAfterField(a: string, b: string, sep: char)
    requires sep !in a
    ensures Split(a + [sep] + b, sep) == [a] + Split(b, sep)
    decreases |a|
  {
    if a == [] {
      assert a + [sep] + b == [sep] + b;
      assert ([sep] + b)[1..] == b;
    } else {
      SplitAfterField(a[1..], b, sep);
      assert (a + [sep] + b)[1..] == a[1..] + [sep] + b;
      assert [a[0]] + a[1..] == a;
    }
  }

  /** A separator-free field appended after a separator becomes the last field. */
  lemma {:induction false} SplitAppendField(s: string, t: string, sep: char)
    requires sep !in t
    ensures Split(s + [sep] + t, sep) == Split(s, sep) + [t]
    decreases |s|
  {
    if s == [] {
      assert s + [sep] + t == [sep] + t;
      assert ([sep] + t)[1..] == t;
      SplitNoSeparator(t, sep);
    } else {
      SplitAppendField(s[1..], t, sep);
      assert (s + [sep] + t)[1..] == s[1..] + [sep] + t;
      if s[0] != sep {
        var r := Split(s[1..], sep);
        assert (r + [t])[1..] == r[1..] + [t];
      }
    }
  }

  /** A number of at least 10^(k-1) takes at least k digits. */
  lemma {:induction false} DecimalWidthAtLeast(n: nat, k: nat)
    requires 1 <= k && Pow10(k - 1) <= n
    ensures k <= |NatToDecimal(n)|
    decreases k
  {
    if k > 1 {
      assert Pow10(k - 1) == 10 * Pow10(k - 2);
      DecimalWidthAtLeast(n / 10, k - 1);
    }
  }

  /** A run of k digits reads as a number below 10^k. */
  lemma {:induction false} DecimalBelow(s: string)
    requires AllDigits(s)
    ensures DecimalValue(s) < Pow10(|s|)
    decreases |s|
  {
    if s != [] {
      DecimalBelow(s[..|s| - 1]);
    }
  }

  /** There is a second field exactly when the separator occurs. */
  lemma {:induction false} SplitHasSecondField(s: string, sep: char)
    ensures |Split(s, sep)| >= 2 <==> sep in s
    decreases |s|
  {
    if s != [] {
      SplitHasSecondField(s[1..], sep);
      assert sep in s <==> s[0] == sep || sep in s[1..];
    }
  }

  // ----- String order -----

  /**
   * Strict lexicographic order by character code: the order of `Array.prototype.sort()`
   * on strings, and of `localeCompare` on the zero-padded dates and times compared here.
   */
  predicate LexLess(a: string, b: string)
    decreases |a|
  {
    |b| > 0 && (|a| == 0 || a[0] < b[0] || (a[0] == b[0] && LexLess(a[1..], b[1..])))
  }

  lemma {:induction false} LexLessIrreflexive(a: string)
    ensures !LexLess(a, a)
    decreases |a|
  {
    if |a| > 0 {
      LexLessIrreflexive(a[1..]);
    }
  }

  lemma {:induction false} LexLessTransitive(a: string, b: string, c: string)
    requires LexLess(a, b) && LexLess(b, c)
    ensures LexLess(a, c)
    decreases |a|
  {
    if |a| > 0 && a[0] == b[0] && b[0] == c[0] {
      LexLessTransitive(a[1..], b[1..], c[1..]);
    }
  }

  /** Any two different strings are ordered one way. */
  lemma {:induction false} LexLessTotal(a: string, b: string)
    ensures a == b || LexLess(a, b) || LexLess(b, a)
    decreases |a|
  {
    if |a| > 0 && |b| > 0 && a[0] == b[0] {
      LexLessTotal(a[1..], b[1..]);
      if a[1..] == b[1..] {
        assert a == [a[0]] + a[1..] && b == [b[0]] + b[1..];
      }
    }
  }

  lemma LexLessAsymmetric(a: string, b: string)
    requires LexLess(a, b)
    ensures !LexLess(b, a)
  {
    if LexLess(b, a) {
      LexLessTransitive(a, b, a);
      LexLessIrreflexive(a);
    }
  }

  // ----- Whitespace and trimming -----

  /** JavaScript's WhiteSpace and LineTerminator characters: what `trim` removes. */
  predicate IsJsSpace(c: char)
  {
    || c == '\t' || c == '\U{000B}' || c == '\U{000C}' || c == ' ' || c == '\U{00A0}' || c == '\U{FEFF}'
    || c == '\U{1680}' || ('\U{2000}' <= c <= '\U{200A}') || c == '\U{202F}' || c == '\U{205F}'
    || c == '\U{3000}' || c == '\n' || c == '\r' || c == '\U{2028}' || c == '\U{2029}'
  }

  /** The characters for which Python's `str.isspace` holds: what `int()` and `strip()` skip. */
  predicate IsPySpace(c: char)
  {
    || c == '\t' || c == '\n' || c == '\U{000B}' || c == '\U{000C}' || c == '\r'
    || ('\U{001C}' <= c <= '\U{001F}') || c == ' ' || c == '\U{0085}' || c == '\U{00A0}'
    || c == '\U{1680}' || ('\U{2000}' <= c <= '\U{200A}') || c == '\U{2028}' || c == '\U{2029}'
    || c == '\U{202F}' || c == '\U{205F}' || c == '\U{3000}'
  }

  function TrimStart(s: string, space: char -> bool): (r: string)
    ensures |r| <= |s| && r == s[|s| - |r|..]
    ensures r != [] ==> !space(r[0])
    ensures forall i :: 0 <= i < |s| - |r| ==> space(s[i])
    decreases |s|
  {
    if s != [] && space(s[0]) then TrimStart(s[1..], space) else s
  }

  function TrimEnd(s: string, space: char -> bool): (r: string)
    ensures |r| <= |s| && r == s[..|r|]
    ensures r != [] ==> !space(r[|r| - 1])
    ensures forall i :: |r| <= i < |s| ==> space(s[i])
    decreases |s|
  {
    if s != [] && space(s[|s| - 1]) then TrimEnd(s[..|s| - 1], space) else s
  }

  /** Nothing is trimmed from a string that does not start with whitespace. */
  lemma UntrimmedStart(s: string, space: char -> bool)
    requires s != [] && !space(s[0])
    ensures TrimStart(s, space) == s
  {
  }

  /** A digit string has no whitespace at either end to remove. */
  lemma DigitsUntrimmed(d: string, space: char -> bool)
    requires |d| >= 1 && AllDigits(d)
    requires forall c :: IsDigit(c) ==> !space(c)
    ensures TrimStart(d, space) == d && TrimEnd(d, space) == d
  {
    assert IsDigit(d[0]) && IsDigit(d[|d| - 1]);
  }

  /** JavaScript's `s.trim()`. */
  function Trim(s: string): string
  {
    TrimEnd(TrimStart(s, IsJsSpace), IsJsSpace)
  }

  /** `trim()` gives the empty string exactly when every character is whitespace. */
  lemma TrimEmptyIff(s: string)
    ensures Trim(s) == "" <==> forall i :: 0 <= i < |s| ==> IsJsSpace(s[i])
  {
    var t := TrimStart(s, IsJsSpace);
    if Trim(s) == "" {
      forall i | 0 <= i < |s| ensures IsJsSpace(s[i]) {
        if i >= |s| - |t| {
          assert s[i] == t[i - (|s| - |t|)];
        }
      }
    }
  }

  // ----- JavaScript's parseInt -----

  /** A number as JavaScript's `parseInt` produces it: an integer or NaN. */
  datatype JsNumber = NaN | Int(value: int) {

    /** Truthiness: NaN and 0 are falsy. */
    predicate Truthy()
    {
      Int? && value != 0
    }

    /** `String(x)` / `x.toString()`. */
    function ToString(): string
    {
      match this
      case NaN => "NaN"
      case Int(v) => IntToDecimal(v)
    }

    /** `x + k`: NaN stays NaN. */
    function Plus(k: int): JsNumber
    {
      match this
      case NaN => NaN
      case Int(v) => Int(v + k)
    }
  }

  /** The longest prefix of s made of digits of the radix. */
  function RadixPrefix(s: string, radix: nat): (r: string)
    ensures r <= s && AllRadixDigits(r, radix)
    ensures |r| < |s| ==> !IsRadixDigit(s[|r|], radix)
    decreases |s|
  {
    if s == [] || !IsRadixDigit(s[0], radix) then [] else [s[0]] + RadixPrefix(s[1..], radix)
  }

  /**
   * `parseInt(s)` without a radix: leading whitespace is skipped, one sign is
   * read, a `0x`/`0X` prefix selects hexadecimal, and the longest run of digits
   * that follows is read; no digit at all gives NaN.
   */
  function ParseInt(s: string): JsNumber
  {
    var t := TrimStart(s, IsJsSpace);
    var negative := |t| > 0 && t[0] == '-';
    var u := if |t| > 0 && (t[0] == '-' || t[0] == '+') then t[1..] else t;
    var hex := |u| >= 2 && u[0] == '0' && (u[1] == 'x' || u[1] == 'X');
    var radix := if hex then 16 else 10;
    var digits := RadixPrefix(if hex then u[2..] else u, radix);
    if digits == [] then NaN
    else
      var v: int := NumeralValue(digits, radix);
      Int(if negative then -v else v)
  }

  lemma {:induction false} RadixPrefixOfDigits(d: string, rest: string)
    requires AllDigits(d)
    requires rest == [] || !IsDigit(rest[0])
    ensures RadixPrefix(d + rest, 10) == d
    decreases |d|
  {
    if d == [] {
      assert d + rest == rest;
    } else {
      RadixPrefixOfDigits(d[1..], rest);
      assert (d + rest)[1..] == d[1..] + rest;
      assert [d[0]] + d[1..] == d;
    }
  }

  /** `parseInt` reads a leading decimal numeral and stops at the first non-digit. */
  lemma ParseIntOfNumeral(d: string, rest: string)
    requires |d| >= 1 && AllDigits(d)
    requires rest == [] || (!IsDigit(rest[0]) && rest[0] != 'x' && rest[0] != 'X')
    ensures ParseInt(d + rest) == Int(DecimalValue(d))
  {
    var s := d + rest;
    assert s[0] == d[0];
    UntrimmedStart(s, IsJsSpace);
    assert !(|s| >= 2 && (s[1] == 'x' || s[1] == 'X')) by {
      if |d| >= 2 {
        assert s[1] == d[1];
      } else if rest != [] {
        assert s[1] == rest[0];
      }
    }
    RadixPrefixOfDigits(d, rest);
  }

  /** A whole string of decimal digits is read as its value. */
  lemma ParseIntOfDigits(d: string)
    requires |d| >= 1 && AllDigits(d)
    ensures ParseInt(d) == Int(DecimalValue(d))
  {
    assert d + [] == d;
    ParseIntOfNumeral(d, []);
  }

  // ----- Python's int() and str.lower() -----

  /**
   * `int(s)` on a string: surrounding whitespace is stripped, one sign is read,
   * and the rest must be a non-empty run of ASCII digits; anything else is a
   * ValueError, modelled as None.
   */
  function PyInt(s: string): (r: Option<int>)
  {
    var t := TrimEnd(TrimStart(s, IsPySpace), IsPySpace);
    var negative := |t| > 0 && t[0] == '-';
    var u := if |t| > 0 && (t[0] == '-' || t[0] == '+') then t[1..] else t;
    if u != [] && AllDigits(u) then
      var v: int := DecimalValue(u);
      Some(if negative then -v else v)
    else None
  }

  /** A run of ASCII digits is an integer to Python's `int()`. */
  lemma PyIntOfDigits(d: string)
    requires |d| >= 1 && AllDigits(d)
    ensures PyInt(d) == Some(DecimalValue(d))
  {
    DigitsUntrimmed(d, IsPySpace);
  }

  /** `parseInt` reads back what `String(n)` wrote. */
  lemma ParseIntOfDecimal(n: nat)
    ensures ParseInt(NatToDecimal(n)) == Int(n)
  {
    ParseIntOfDigits(NatToDecimal(n));
    DecimalRoundTrip(n);
  }

  /** Python's `int()` reads back what `str()` wrote. */
  lemma PyIntOfDecimal(n: nat)
    ensures PyInt(NatToDecimal(n)) == Some(n)
  {
    PyIntOfDigits(NatToDecimal(n));
    DecimalRoundTrip(n);
  }

  predicate IsAsciiUpper(c: char)
  {
    'A' <= c <= 'Z'
  }

  /** Two characters that are the same letter in either ASCII case, or equal. */
  predicate SameUpToAsciiCase(a: char, b: char)
  {
    a == b || (IsAsciiUpper(a) && b as int == a as int + 32) || (IsAsciiUpper(b) && a as int == b as int + 32)
  }

  /** `s.lower()` on ASCII letters: the same text up to ASCII case, with no ASCII capital left. */
  function AsciiLower(s: string): (r: string)
    ensures |r| == |s|
    ensures forall i :: 0 <= i < |s| ==> SameUpToAsciiCase(s[i], r[i]) && !IsAsciiUpper(r[i])
  {
    seq(|s|, i requires 0 <= i < |s| => if IsAsciiUpper(s[i]) then (s[i] as int + 32) as char else s[i])
  }

  /** Lowering identifies exactly the strings that differ only in ASCII case. */
  lemma AsciiLowerCaseBlind(s: string, t: string)
    ensures AsciiLower(s) == AsciiLower(t) <==>
      |s| == |t| && forall i :: 0 <= i < |s| ==> SameUpToAsciiCase(s[i], t[i])
  {
    var ls, lt := AsciiLower(s), AsciiLower(t);
    if |s| == |t| && forall i :: 0 <= i < |s| ==> SameUpToAsciiCase(s[i], t[i]) {
      forall i | 0 <= i < |s|
        ensures ls[i] == lt[i]
      {
        assert SameUpToAsciiCase(s[i], t[i]);
      }
    }
  }
}
