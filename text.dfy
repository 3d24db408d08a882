/**
 * The string operations the ticket pipeline relies on: Python's `str.lower`
 * and `str.strip` (restricted to ASCII), decimal rendering of integers, and
 * the parse of a decimal number that `int(float(value))` performs.
 */
module Text {
  import opened Wrappers

  /**
   * The ASCII characters Python's `str.isspace()` accepts and `str.strip()`
   * removes: space, tab, line feed, vertical tab, form feed, carriage
   * return and the four separators 0x1C..0x1F.
   */
  predicate IsSpace(c: char) {
    c == ' ' || c == '\t' || c == '\n' || c == '\r' || c == '\U{B}' || c == '\U{C}' || '\U{1C}' <= c <= '\U{1F}'
  }

  predicate IsUpper(c: char) { 'A' <= c <= 'Z' }

  predicate IsDigit(c: char) { '0' <= c <= '9' }

  function LowerChar(c: char): (r: char)
    ensures !IsUpper(r)
    ensures IsUpper(c) ==> r as int == c as int + 32
    ensures !IsUpper(c) ==> r == c
  {
    if IsUpper(c) then (c as int + 32) as char else c
  }

  /** `s.lower()` on ASCII letters: no upper-case letter survives, everything else is kept. */
  function Lower(s: string): (r: string)
    ensures |r| == |s|
    ensures forall i :: 0 <= i < |r| ==> !IsUpper(r[i])
    ensures forall i :: 0 <= i < |s| && !IsUpper(s[i]) ==> r[i] == s[i]
  {
    seq(|s|, i requires 0 <= i < |s| => LowerChar(s[i]))
  }

  lemma LowerIdempotent(s: string)
    ensures Lower(Lower(s)) == Lower(s)
  {
  }

  function StripLeft(s: string): (r: string)
    ensures r == [] || !IsSpace(r[0])
    ensures |r| <= |s| && r == s[|s| - |r|..]
    ensures forall i :: 0 <= i < |s| - |r| ==> IsSpace(s[i])
  {
    if s != [] && IsSpace(s[0]) then StripLeft(s[1..]) else s
  }

  function StripRight(s: string): (r: string)
    ensures r == [] || !IsSpace(r[|r| - 1])
    ensures |r| <= |s| && r == s[..|r|]
    ensures forall i :: |r| <= i < |s| ==> IsSpace(s[i])
  {
    if s != [] && IsSpace(s[|s| - 1]) then StripRight(s[..|s| - 1]) else s
  }

  /**
   * `s.strip()`: the longest slice of `s` that neither starts nor ends with
   * white space, obtained by removing only white space from both ends.
   */
  function Strip(s: string): (r: string)
    ensures r == [] || (!IsSpace(r[0]) && !IsSpace(r[|r| - 1]))
    ensures |r| <= |StripLeft(s)| && r == s[|s| - |StripLeft(s)|..][..|r|]
  {
    StripRight(StripLeft(s))
  }

  /** A string without white space at either end is its own strip. */
  lemma {:induction false} StripTrimmed(s: string)
    requires s == [] || (!IsSpace(s[0]) && !IsSpace(s[|s| - 1]))
    ensures Strip(s) == s
  {
    assert StripLeft(s) == s;
    assert StripRight(s) == s;
  }

  /** One space on each side of a trimmed string is stripped away. */
  lemma StripPadded(t: string)
    requires t != [] && !IsSpace(t[0]) && !IsSpace(t[|t| - 1])
    ensures Strip([' '] + t + [' ']) == t
  {
    var s := [' '] + t + [' '];
    assert s[1..] == t + [' '];
    assert StripLeft(s) == StripLeft(t + [' ']) == t + [' '];
    assert (t + [' '])[..|t|] == t;
    assert StripRight(t + [' ']) == StripRight(t) == t;
  }

  /** A trailing space after a trimmed string is stripped away. */
  lemma TrailingSpaceStripped(t: string)
    requires t != [] && !IsSpace(t[0]) && !IsSpace(t[|t| - 1])
    ensures Strip(t + [' ']) == t
  {
    assert StripLeft(t + [' ']) == t + [' '];
    assert (t + [' '])[..|t|] == t;
    assert StripRight(t + [' ']) == StripRight(t) == t;
  }

  /** Stripping twice is stripping once. */
  lemma StripIdempotent(s: string)
    ensures Strip(Strip(s)) == Strip(s)
  {
    StripTrimmed(Strip(s));
  }

  function DigitChar(d: nat): (c: char)
    requires d < 10
    ensures IsDigit(c)
  {
    ('0' as int + d) as char
  }

  function DigitValue(c: char): (d: nat)
    requires IsDigit(c)
    ensures d < 10
  {
    c as int - '0' as int
  }

  /** `str(n)` for a natural number: its shortest decimal digit string. */
  function NatToString(n: nat): (s: string)
    ensures |s| >= 1
    ensures forall i :: 0 <= i < |s| ==> IsDigit(s[i])
    ensures |s| > 1 ==> s[0] != '0'
    decreases n
  {
    if n < 10 then [DigitChar(n)] else NatToString(n / 10) + [DigitChar(n % 10)]
  }

  /** `str(n)` for an integer: a minus sign before the digits of a negative number. */
  function IntToString(n: int): (s: string)
    ensures |s| >= 1
    ensures n >= 0 <==> IsDigit(s[0])
  {
    if n >= 0 then NatToString(n) else "-" + NatToString(-n)
  }

  /** The number a string of decimal digits denotes. */
  function DigitsValue(s: string): nat
    requires forall i :: 0 <= i < |s| ==> IsDigit(s[i])
  {
    if s == [] then 0 else DigitsValue(s[..|s| - 1]) * 10 + DigitValue(s[|s| - 1])
  }

  /** Reading the digits of `str(n)` back gives `n`. */
  lemma {:induction false} NatToStringRoundTrip(n: nat)
    ensures DigitsValue(NatToString(n)) == n
    decreases n
  {
    var s := NatToString(n);
    if n >= 10 {
      NatToStringRoundTrip(n / 10);
      assert s[..|s| - 1] == NatToString(n / 10);
    }
  }

  /** `n` written with at least `width` digits, padded on the left with zeros (as `%Y`, `%m` and `%d` do). */
  function ZeroPad(n: nat, width: nat): (s: string)
    ensures |s| >= width
    ensures forall i :: 0 <= i < |s| ==> IsDigit(s[i])
    ensures DigitsValue(s) == n
  {
    var digits := NatToString(n);
    NatToStringRoundTrip(n);
    var pad := if |digits| < width then seq(width - |digits|, _ => '0') else [];
    LeadingZeros(pad, digits);
    pad + digits
  }

  lemma {:induction false} LeadingZeros(pad: string, digits: string)
    requires forall i :: 0 <= i < |pad| ==> pad[i] == '0'
    requires forall i :: 0 <= i < |digits| ==> IsDigit(digits[i])
    ensures DigitsValue(pad + digits) == DigitsValue(digits)
    decreases |digits|
  {
    if digits == [] {
      ZerosValue(pad);
      assert pad + digits == pad;
    } else {
      var init := digits[..|digits| - 1];
      LeadingZeros(pad, init);
      assert (pad + digits)[..|pad + digits| - 1] == pad + init;
    }
  }

  lemma {:induction false} ZerosValue(pad: string)
    requires forall i :: 0 <= i < |pad| ==> pad[i] == '0'
    ensures DigitsValue(pad) == 0
    decreases |pad|
  {
    if pad != [] {
      ZerosValue(pad[..|pad| - 1]);
    }
  }

  /** Padding a number below `10^width` yields exactly `width` digits. */
  lemma {:induction false} ZeroPadWidth(n: nat, width: nat)
    requires width >= 1 && n < Pow10(width)
    ensures |ZeroPad(n, width)| == width
  {
    NatToStringLength(n, width);
  }

  function Pow10(k: nat): (p: nat)
    ensures p >= 1
  {
    if k == 0 then 1 else 10 * Pow10(k - 1)
  }

  lemma {:induction false} NatToStringLength(n: nat, width: nat)
    requires width >= 1 && n < Pow10(width)
    ensures |NatToString(n)| <= width
    decreases n
  {
    if n >= 10 {
      assert width - 1 >= 1 && n / 10 < Pow10(width - 1);
      NatToStringLength(n / 10, width - 1);
    }
  }

  /**
   * `int(float(s))` on a plain decimal number: optional surrounding white
   * space, an optional sign, digits with at most one decimal point and at
   * least one digit. The fraction is truncated toward zero. Anything else
   * is not a number (`None`), which the caller turns into its default.
   */
  function ParseTruncatedDecimal(s: string): (r: Option<int>)
    ensures r.Some? ==> Strip(s) != []
  {
    var t := Strip(s);
    if t == [] then None
    else
      match ParseUnsigned(Unsigned(t))
      case None => None
      case Some(magnitude) =>
        var value: int := if t[0] == '-' then 0 - magnitude as int else magnitude;
        Some(value)
  }

  /** A trimmed number without its leading sign, if it has one. */
  function Unsigned(t: string): string
  {
    if t != [] && (t[0] == '-' || t[0] == '+') then t[1..] else t
  }

  /** Digits with at most one decimal point and at least one digit; the whole part's value. */
  function ParseUnsigned(body: string): (r: Option<nat>)
    ensures r.Some? ==> body != []
  {
    var point := PointIndex(body);
    var whole := body[..point];
    var fraction := if point < |body| then body[point + 1..] else [];
    if whole + fraction == [] || !AllDigits(whole) || !AllDigits(fraction) then None
    else Some(DigitsValue(whole))
  }

  predicate AllDigits(s: string) {
    forall i :: 0 <= i < |s| ==> IsDigit(s[i])
  }

  /** The index of the first '.', or the length when there is none. */
  function PointIndex(s: string): (k: nat)
    ensures k <= |s|
    ensures forall i :: 0 <= i < k ==> s[i] != '.'
    ensures k < |s| ==> s[k] == '.'
  {
    if s == [] then 0 else if s[0] == '.' then 0 else 1 + PointIndex(s[1..])
  }

  /** The digits of a natural number are read back as that number. */
  lemma ParseNatToString(n: nat)
    ensures ParseUnsigned(NatToString(n)) == Some(n)
  {
    var digits := NatToString(n);
    NatToStringRoundTrip(n);
    NoPoint(digits);
    assert digits[..|digits|] == digits;
  }

  /** The decimal rendering of an integer is read back as that integer. */
  lemma ParseIntToString(n: int)
    ensures ParseTruncatedDecimal(IntToString(n)) == Some(n)
  {
    var s := IntToString(n);
    var m: nat := if n >= 0 then n else -n;
    var digits := NatToString(m);
    assert !IsSpace(s[0]) && !IsSpace(s[|s| - 1]);
    StripTrimmed(s);
    var body := if s[0] == '-' || s[0] == '+' then s[1..] else s;
    assert body == digits;
    ParseNatToString(m);
  }

  lemma {:induction false} NoPoint(s: string)
    requires AllDigits(s)
    ensures PointIndex(s) == |s|
    decreases |s|
  {
    if s != [] { NoPoint(s[1..]); }
  }

  /**
   * An unsigned decimal `whole.fraction` reads as its whole part: the
   * fraction is dropped, which truncates toward zero (`WholePart` shows the
   * whole part is the quotient of all the digits by the fraction's place
   * value).
   */
  lemma PlainNumber(whole: string, fraction: string)
    requires AllDigits(whole) && AllDigits(fraction) && whole + fraction != []
    ensures ParseTruncatedDecimal(whole + ['.'] + fraction) == Some(DigitsValue(whole))
  {
    var body := whole + ['.'] + fraction;
    DecimalEnds(whole, fraction);
    assert Unsigned(body) == body;
    assert ParseUnsigned(Unsigned(body)) == Some(DigitsValue(whole)) by {
      UnsignedDecimal(whole, fraction);
    }
    ReadTrimmed(body, DigitsValue(whole));
  }

  /**
   * A decimal `whole.fraction` after a `-` or `+` sign reads as its whole
   * part with that sign, so a negative fraction is truncated toward zero
   * as well (`-3.9` reads as -3).
   */
  lemma SignedNumber(sign: char, whole: string, fraction: string)
    requires sign == '-' || sign == '+'
    requires AllDigits(whole) && AllDigits(fraction) && whole + fraction != []
    ensures ParseTruncatedDecimal([sign] + (whole + ['.'] + fraction)).Some?
    ensures ParseTruncatedDecimal([sign] + (whole + ['.'] + fraction)).value
      == if sign == '-' then -(DigitsValue(whole) as int) else DigitsValue(whole)
  {
    DecimalEnds(whole, fraction);
    UnsignedDecimal(whole, fraction);
    SignedBody(sign, whole + ['.'] + fraction, DigitsValue(whole));
  }

  /** A signed body that reads as `magnitude` reads as `magnitude` with that sign. */
  lemma SignedBody(sign: char, body: string, magnitude: nat)
    requires sign == '-' || sign == '+'
    requires body != [] && !IsSpace(body[|body| - 1]) && ParseUnsigned(body) == Some(magnitude)
    ensures ParseTruncatedDecimal([sign] + body) == Some(if sign == '-' then -(magnitude as int) else magnitude)
  {
    var t := [sign] + body;
    assert t != [] && t[0] == sign && !IsSpace(t[0]) && !IsSpace(t[|t| - 1]) && ParseUnsigned(Unsigned(t)) == Some(magnitude) by {
      SignedTrimmed(sign, body);
    }
    ReadTrimmed(t, magnitude);
  }

  /** A trimmed string whose unsigned part reads as `magnitude` is read as `magnitude` with its sign. */
  lemma ReadTrimmed(t: string, magnitude: nat)
    requires t != [] && !IsSpace(t[0]) && !IsSpace(t[|t| - 1]) && ParseUnsigned(Unsigned(t)) == Some(magnitude)
    ensures ParseTruncatedDecimal(t) == Some(if t[0] == '-' then -(magnitude as int) else magnitude)
  {
    StripTrimmed(t);
  }

  /** A decimal starts with a digit or the point, and ends with one. */
  lemma DecimalEnds(whole: string, fraction: string)
    requires AllDigits(whole) && AllDigits(fraction)
    ensures var body := whole + ['.'] + fraction;
      body != [] && !IsSpace(body[0]) && body[0] != '-' && body[0] != '+' && !IsSpace(body[|body| - 1])
  {
    var body := whole + ['.'] + fraction;
    assert body[0] == if whole != [] then whole[0] else '.';
    assert body[|body| - 1] == if fraction != [] then fraction[|fraction| - 1] else '.';
  }

  lemma SignedTrimmed(sign: char, body: string)
    requires (sign == '-' || sign == '+') && body != [] && !IsSpace(body[|body| - 1])
    ensures var s := [sign] + body; !IsSpace(s[0]) && !IsSpace(s[|s| - 1]) && Unsigned(s) == body
  {
    var s := [sign] + body;
    assert s[0] == sign && s[1..] == body && s[|s| - 1] == body[|body| - 1];
    assert s != [] && (s[0] == '-' || s[0] == '+');
    assert Unsigned(s) == s[1..];
  }

  /** The whole part of a decimal is the quotient of all its digits by the fraction's place value. */
  lemma WholePart(whole: string, fraction: string)
    requires AllDigits(whole) && AllDigits(fraction)
    ensures DigitsValue(whole) == DigitsValue(whole + fraction) / Pow10(|fraction|)
  {
    DigitsAppend(whole, fraction);
    DigitsBound(fraction);
    DivideExactly(DigitsValue(whole), Pow10(|fraction|), DigitsValue(fraction));
  }

  lemma UnsignedDecimal(whole: string, fraction: string)
    requires AllDigits(whole) && AllDigits(fraction) && whole + fraction != []
    ensures ParseUnsigned(whole + ['.'] + fraction) == Some(DigitsValue(whole))
  {
    var body := whole + ['.'] + fraction;
    assert body == whole + (['.'] + fraction);
    PointAfterDigits(whole, ['.'] + fraction);
    var point := PointIndex(body);
    assert point == |whole| < |body|;
    assert body[..point] == whole;
    assert body[point + 1..] == fraction;
  }

  /** A stripped number whose unsigned part holds a character that is neither a digit nor a point is not a number. */
  lemma RejectsStrayCharacter(s: string, i: nat)
    requires i < |Unsigned(Strip(s))|
    requires !IsDigit(Unsigned(Strip(s))[i]) && Unsigned(Strip(s))[i] != '.'
    ensures ParseTruncatedDecimal(s) == None
  {
    var body := Unsigned(Strip(s));
    var point := PointIndex(body);
    if i > point {
      assert body[point + 1..][i - point - 1] == body[i];
    } else {
      assert body[..point][i] == body[i];
    }
  }

  /** A stripped number whose unsigned part holds two decimal points is not a number. */
  lemma RejectsSecondPoint(s: string, i: nat, j: nat)
    requires i < j < |Unsigned(Strip(s))|
    requires Unsigned(Strip(s))[i] == '.' && Unsigned(Strip(s))[j] == '.'
    ensures ParseTruncatedDecimal(s) == None
  {
    var body := Unsigned(Strip(s));
    var point := PointIndex(body);
    assert point <= i;
    assert body[point + 1..][j - point - 1] == '.';
  }

  lemma {:induction false} PointAfterDigits(whole: string, rest: string)
    requires AllDigits(whole) && rest != [] && rest[0] == '.'
    ensures PointIndex(whole + rest) == |whole|
    decreases |whole|
  {
    if whole != [] {
      assert (whole + rest)[1..] == whole[1..] + rest;
      PointAfterDigits(whole[1..], rest);
    }
  }

  /** Appending digits shifts the value left by their number of places. */
  lemma {:induction false} DigitsAppend(a: string, b: string)
    requires AllDigits(a) && AllDigits(b)
    ensures DigitsValue(a + b) == DigitsValue(a) * Pow10(|b|) + DigitsValue(b)
    decreases |b|
  {
    if b == [] {
      assert a + b == a;
    } else {
      var init := b[..|b| - 1];
      assert (a + b)[..|a + b| - 1] == a + init;
      DigitsAppend(a, init);
      var x, p, y, d := DigitsValue(a), Pow10(|init|), DigitsValue(init), DigitValue(b[|b| - 1]);
      assert DigitsValue(a + b) == (x * p + y) * 10 + d;
      assert DigitsValue(b) == y * 10 + d && Pow10(|b|) == 10 * p;
      ShiftLeft(x, p, y, d);
    }
  }

  lemma ShiftLeft(x: int, p: int, y: int, d: int)
    ensures (x * p + y) * 10 + d == x * (10 * p) + (y * 10 + d)
  {
  }

  lemma {:induction false} DigitsBound(s: string)
    requires AllDigits(s)
    ensures DigitsValue(s) < Pow10(|s|)
    decreases |s|
  {
    if s != [] {
      DigitsBound(s[..|s| - 1]);
    }
  }

  lemma DivideExactly(q: nat, p: nat, f: nat)
    requires f < p
    ensures (q * p + f) / p == q
  {
    var n := q * p + f;
    var k, m := n / p, n % p;
    assert n == k * p + m;
    Distribute(k, q, p);
    if k > q {
      AtLeastOnce(k - q, p);
    } else if k < q {
      AtLeastOnce(q - k, p);
      Distribute(q, k, p);
    }
  }

  lemma Distribute(a: int, b: int, p: int)
    ensures (a - b) * p == a * p - b * p
  {
  }

  lemma AtLeastOnce(a: int, p: nat)
    requires a >= 1
    ensures a * p >= p
  {
  }
}
