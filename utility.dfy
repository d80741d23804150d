/**
 * The two helpers of AdditionalUtility.cpp: zero-padded integer formatting,
 * which follows the `%0*d` conversion of section 7.21.6.1 of ISO C11 written
 * into a 100-byte buffer, and the descending sort of a vector's three
 * components.
 */
module AdditionalUtility {
  import opened HeatmapTypes

  newtype int32 = x: int | -0x8000_0000 <= x < 0x8000_0000

  /** The number of characters the 100-byte buffer can hold before its terminator. */
  const BufferCapacity := 99

  function Abs(x: int): nat
  {
    if x < 0 then -x else x
  }

  function Max(a: int, b: int): int
  {
    if a < b then b else a
  }

  function Min(a: int, b: int): int
  {
    if a < b then a else b
  }

  predicate IsDigit(c: char)
  {
    '0' <= c <= '9'
  }

  function DigitChar(d: nat): char
    requires d < 10
  {
    ('0' as int + d) as char
  }

  /** The value of a character read as a digit, counted from '0'. */
  function DigitValue(c: char): int
  {
    c as int - '0' as int
  }

  function Repeat(c: char, n: nat): (s: string)
    ensures |s| == n && forall i :: 0 <= i < n ==> s[i] == c
  {
    seq(n, _ => c)
  }

  /** The decimal digits of `n`, most significant first, without leading zeros. */
  function Digits(n: nat): (s: string)
    ensures |s| >= 1 && forall i :: 0 <= i < |s| ==> IsDigit(s[i])
    decreases n
  {
    if n < 10 then [DigitChar(n)] else Digits(n / 10) + [DigitChar(n % 10)]
  }

  /** The `%d` conversion of `x`: a minus sign for negative values, then the digits. */
  function Converted(x: int): string
  {
    (if x < 0 then "-" else "") + Digits(Abs(x))
  }

  /** The full `%0*d` output before the buffer cuts it: a non-negative width
      pads with zeros between the sign and the digits up to that width; a
      negative width means the `-` flag (which overrides `0`) with the
      absolute width, so the conversion is padded with spaces on the right. */
  function Formatted(integer: int32, width: int32): string
  {
    var conv := Converted(integer as int);
    if width >= 0 then
      if |conv| < width as int then
        (if integer < 0 then "-" else "") + Repeat('0', width as int - |conv|) + Digits(Abs(integer as int))
      else conv
    else
      if |conv| < -(width as int) then conv + Repeat(' ', -(width as int) - |conv|) else conv
  }

  /** What the buffer holds after `snprintf(Buffer, 100, "%0*d", ...)`: the
      formatted text cut to the buffer's 99 usable characters. */
  function PaddedIntegerToString(integer: int32, numDigits: int32 := 2): string
  {
    var f := Formatted(integer, numDigits);
    if |f| <= BufferCapacity then f else f[..BufferCapacity]
  }

  /** The number a string of digits denotes, leading zeros allowed (the
      reader below only applies it to digit runs). */
  function DecimalValue(s: string): int
    decreases |s|
  {
    if |s| == 0 then 0 else DecimalValue(s[..|s| - 1]) * 10 + DigitValue(s[|s| - 1])
  }

  /** The length of the run of digits `s` starts with. */
  function DigitRun(s: string): (n: nat)
    ensures n <= |s|
    decreases |s|
  {
    if |s| == 0 || !IsDigit(s[0]) then 0 else 1 + DigitRun(s[1..])
  }

  /** Reads a decimal integer the way `strtol` does after any leading blanks:
      an optional minus sign, then as many digits as follow. */
  function ParseInteger(s: string): int
  {
    if |s| > 0 && s[0] == '-' then -ReadUnsigned(s[1..]) else ReadUnsigned(s)
  }

  /** The value of the digit run `s` starts with. */
  function ReadUnsigned(s: string): int
  {
    DecimalValue(s[..DigitRun(s)])
  }

  function Pow10(k: nat): nat
  {
    if k == 0 then 1 else 10 * Pow10(k - 1)
  }

  lemma {:induction false} ParseDigits(n: nat)
    ensures DecimalValue(Digits(n)) == n
    decreases n
  {
    if n >= 10 {
      ParseDigits(n / 10);
      var s := Digits(n);
      assert s[..|s| - 1] == Digits(n / 10);
    }
  }

  lemma {:induction false} ParseZeros(k: nat)
    ensures DecimalValue(Repeat('0', k)) == 0
  {
    if k > 0 {
      assert Repeat('0', k)[..k - 1] == Repeat('0', k - 1);
      ParseZeros(k - 1);
    }
  }

  /** Leading zeros do not change the number a digit string denotes. */
  lemma {:induction false} ParseLeadingZeros(k: nat, t: string)
    ensures DecimalValue(Repeat('0', k) + t) == DecimalValue(t)
    decreases |t|
  {
    var z := Repeat('0', k);
    if |t| == 0 {
      assert z + t == z;
      ParseZeros(k);
    } else {
      var n := |t| - 1;
      assert (z + t)[..|z + t| - 1] == z + t[..n];
      ParseLeadingZeros(k, t[..n]);
    }
  }

  lemma {:induction false} DigitsLength(n: nat, k: nat)
    requires k >= 1 && n < Pow10(k)
    ensures |Digits(n)| <= k
    decreases k
  {
    if n >= 10 {
      DigitsLength(n / 10, k - 1);
    }
  }

  /** A 32-bit integer converts to at most 11 characters (sign and 10 digits). */
  lemma ConvertedLength(x: int32)
    ensures |Converted(x as int)| <= 11
  {
    assert Pow10(10) == 10000000000;
    DigitsLength(Abs(x as int), 10);
  }

  /** A digit run ends where the first non-digit begins. */
  lemma {:induction false} DigitRunOfPadded(body: string, tail: string)
    requires forall i :: 0 <= i < |body| ==> IsDigit(body[i])
    requires |tail| > 0 ==> !IsDigit(tail[0])
    ensures DigitRun(body + tail) == |body|
    decreases |body|
  {
    if |body| > 0 {
      assert (body + tail)[1..] == body[1..] + tail;
      DigitRunOfPadded(body[1..], tail);
    } else {
      assert body + tail == tail;
    }
  }

  /** The result is as long as the width asks (the conversion itself when it
      is longer), except that the buffer keeps at most 99 characters. */
  lemma PaddedLength(integer: int32, numDigits: int32)
    ensures |PaddedIntegerToString(integer, numDigits)| ==
              Min(BufferCapacity, Max(Abs(numDigits as int), |Converted(integer as int)|))
  {
  }

  /** Reading back digits followed by a non-digit tail. */
  lemma ReadDigitsThenTail(digits: string, tail: string)
    requires forall i :: 0 <= i < |digits| ==> IsDigit(digits[i])
    requires |tail| > 0 ==> !IsDigit(tail[0])
    ensures ReadUnsigned(digits + tail) == DecimalValue(digits)
  {
    DigitRunOfPadded(digits, tail);
    assert (digits + tail)[..|digits|] == digits;
  }

  /** With a width of at most 99 above the conversion's length, the result is
      the sign, then zeros up to the width, then the digits. */
  lemma ZeroPaddedForm(integer: int32, numDigits: int32)
    requires 0 <= numDigits as int <= BufferCapacity && |Converted(integer as int)| < numDigits as int
    ensures PaddedIntegerToString(integer, numDigits) ==
              (if integer < 0 then "-" else "") +
              (Repeat('0', numDigits as int - |Converted(integer as int)|) + Digits(Abs(integer as int)))
  {
    var f := Formatted(integer, numDigits);
    var z := Repeat('0', numDigits as int - |Converted(integer as int)|);
    var sign: string := if integer < 0 then "-" else "";
    assert f == sign + z + Digits(Abs(integer as int));
    assert |f| == numDigits as int;
  }

  /** Reading back an optional minus sign, digits and a non-digit tail. */
  lemma ParseSignedDigits(r: string, negative: bool, digits: string, tail: string)
    requires |digits| > 0 && forall i :: 0 <= i < |digits| ==> IsDigit(digits[i])
    requires |tail| > 0 ==> !IsDigit(tail[0])
    requires r == (if negative then "-" else "") + (digits + tail)
    ensures ParseInteger(r) == if negative then -DecimalValue(digits) else DecimalValue(digits)
  {
    ReadDigitsThenTail(digits, tail);
    if negative {
      ParseMinus(r, digits + tail);
    } else {
      ParseNoMinus(r, digits, tail);
    }
  }

  lemma ParseMinus(r: string, rest: string)
    requires r == "-" + rest
    ensures ParseInteger(r) == -ReadUnsigned(rest)
  {
    assert r[0] == '-' && r[1..] == rest;
  }

  lemma ParseNoMinus(r: string, digits: string, tail: string)
    requires |digits| > 0 && IsDigit(digits[0])
    requires r == "" + (digits + tail)
    ensures ParseInteger(r) == ReadUnsigned(digits + tail)
  {
    assert r == digits + tail && r[0] == digits[0];
  }

  /** Zeros between the sign and the digits do not change what reads back. */
  lemma RoundTripZeroPadded(integer: int32, numDigits: int32)
    requires 0 <= numDigits as int <= BufferCapacity && |Converted(integer as int)| < numDigits as int
    ensures ParseInteger(PaddedIntegerToString(integer, numDigits)) == integer as int
  {
    var x := integer as int;
    var body := Digits(Abs(x));
    var z := Repeat('0', numDigits as int - |Converted(x)|);
    var r := PaddedIntegerToString(integer, numDigits);
    ZeroPaddedForm(integer, numDigits);
    ParseDigits(Abs(x));
    ParseLeadingZeros(|z|, body);
    assert r == (if x < 0 then "-" else "") + ((z + body) + []);
    ParseSignedDigits(r, x < 0, z + body, []);
  }

  /** Trailing spaces do not change what reads back. */
  lemma RoundTripSpacePadded(integer: int32, numDigits: int32)
    requires numDigits < 0 && -(numDigits as int) <= BufferCapacity
    requires |Converted(integer as int)| < -(numDigits as int)
    ensures ParseInteger(PaddedIntegerToString(integer, numDigits)) == integer as int
  {
    var x := integer as int;
    var body := Digits(Abs(x));
    var pad := Repeat(' ', -(numDigits as int) - |Converted(x)|);
    var r := PaddedIntegerToString(integer, numDigits);
    ParseDigits(Abs(x));
    assert r == (if x < 0 then "-" else "") + (body + pad);
    ParseSignedDigits(r, x < 0, body, pad);
  }

  /** Unless the buffer cuts it, reading the result back as a decimal integer
      gives the input, whatever the width and its sign. */
  lemma PaddedRoundTrip(integer: int32, numDigits: int32)
    requires Abs(numDigits as int) <= BufferCapacity
    ensures ParseInteger(PaddedIntegerToString(integer, numDigits)) == integer as int
  {
    ConvertedLength(integer);
    var x := integer as int;
    var conv := Converted(x);
    if numDigits >= 0 && |conv| < numDigits as int {
      RoundTripZeroPadded(integer, numDigits);
    } else if numDigits < 0 && |conv| < -(numDigits as int) {
      RoundTripSpacePadded(integer, numDigits);
    } else {
      var body := Digits(Abs(x));
      var r := PaddedIntegerToString(integer, numDigits);
      assert r == conv;
      ParseDigits(Abs(x));
      assert r == (if x < 0 then "-" else "") + (body + []);
      ParseSignedDigits(r, x < 0, body, []);
    }
  }

  /** The buffer bounds the output: a width beyond 99 is cut to 99 characters. */
  lemma WideWidthIsCut()
    ensures |PaddedIntegerToString(7, 120)| == BufferCapacity
  {
    PaddedLength(7, 120);
  }

  /** `axes` is a permutation of (x, y, z): the three values in one of
      their six orders. */
  predicate IsOrderOf(axes: seq<real>, x: real, y: real, z: real)
  {
    axes == [x, y, z] || axes == [x, z, y] || axes == [y, x, z] ||
    axes == [y, z, x] || axes == [z, x, y] || axes == [z, y, x]
  }

  /** The three components of `v`, largest first. */
  method GetAxesByLength(v: Vec3) returns (axes: seq<real>)
    ensures IsOrderOf(axes, v.x, v.y, v.z)
    ensures axes[0] >= axes[1] >= axes[2]
  {
    var a, b, c := v.x, v.y, v.z;
    if a < b {
      a, b := b, a;
    }
    assert IsOrderOf([a, b, c], v.x, v.y, v.z);
    if b < c {
      b, c := c, b;
    }
    assert IsOrderOf([a, b, c], v.x, v.y, v.z);
    if a < b {
      a, b := b, a;
    }
    axes := [a, b, c];
  }

  function Max3(x: real, y: real, z: real): real
  {
    if x >= y && x >= z then x else if y >= z then y else z
  }

  /** The first of the sorted axes is the largest component. */
  lemma LongestAxisIsLargest(v: Vec3, axes: seq<real>)
    requires IsOrderOf(axes, v.x, v.y, v.z)
    requires axes[0] >= axes[1] >= axes[2]
    ensures axes[0] == Max3(v.x, v.y, v.z)
  {
  }
}
