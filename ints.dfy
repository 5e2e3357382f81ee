/** Fixed-width integer behaviour of Rust that the modelled code depends on:
    the ranges of the primitive types, `as` truncation, the truncating `%`,
    decimal formatting (`to_string`, `{}`) and `str::parse` for integers. */
module Ints {

  import opened Wrappers

  const I32_MIN: int := -0x8000_0000
  const I32_MAX: int := 0x7fff_ffff
  const I64_MAX: int := 0x7fff_ffff_ffff_ffff
  const I128_MAX: int := 0x7fff_ffff_ffff_ffff_ffff_ffff_ffff_ffff
  const U8_MAX: int := 0xff
  const U32_MAX: int := 0xffff_ffff
  const U64_MAX: int := 0xffff_ffff_ffff_ffff

  predicate InI32(x: int) { I32_MIN <= x <= I32_MAX }

  /** The primitive integer types, as ranges of mathematical integers. */
  type U8 = x: int | 0 <= x <= U8_MAX
  type U32 = x: int | 0 <= x <= U32_MAX
  type U64 = x: int | 0 <= x <= U64_MAX
  type I32 = x: int | I32_MIN <= x <= I32_MAX

  /** `x as i32`: keep the low 32 bits, read them as two's complement. */
  function WrapI32(x: int): (r: int)
    ensures InI32(r)
    ensures (r - x) % 0x1_0000_0000 == 0
    ensures InI32(x) ==> r == x
  {
    (x - I32_MIN) % 0x1_0000_0000 + I32_MIN
  }

  /** Rust's `%` on signed integers: the remainder takes the sign of the dividend. */
  function TruncRem(a: int, b: int): (r: int)
    requires b != 0
    ensures a >= 0 ==> 0 <= r < (if b > 0 then b else -b)
    ensures a < 0 ==> -(if b > 0 then b else -b) < r <= 0
    ensures b > 0 && a >= 0 ==> r == a % b
  {
    var m := if b > 0 then b else -b;
    if a >= 0 then a % m else -((-a) % m)
  }

  /** Rust's `/` on signed integers: the quotient is truncated towards zero. */
  function TruncDiv(a: int, b: int): (q: int)
    requires b != 0
    ensures b > 0 && a >= 0 ==> q == a / b
    ensures (a >= 0) == (b > 0) ==> q >= 0
    ensures (a >= 0) != (b > 0) ==> q <= 0
  {
    var m := if b > 0 then b else -b;
    var q0 := (if a >= 0 then a else -a) / m;
    if (a >= 0) == (b > 0) then q0 else -q0
  }

  /** Multiplying by a positive k and dividing by it again is the identity. */
  lemma MulDivCancel(x: int, k: int)
    requires k > 0
    ensures (k * x) / k == x
  {
    var q, r := (k * x) / k, (k * x) % k;
    assert k * q + r == k * x && 0 <= r < k;
    var m := x - q;
    assert k * m == r;
  }

  /** A product of naturals is zero exactly when a factor is, and otherwise
      at least either factor. */
  lemma ProductBounds(w: nat, h: nat)
    ensures w * h == 0 <==> w == 0 || h == 0
    ensures w > 0 && h > 0 ==> w * h >= w && w * h >= h
  {
    if w > 0 && h > 0 {
      assert w * h == w * (h - 1) + w;
      assert w * h == (w - 1) * h + h;
    }
  }

  // ----- decimal digits -----

  predicate IsDigit(c: char) { '0' <= c <= '9' }

  function DigitValue(c: char): (d: nat)
    requires IsDigit(c)
    ensures d < 10
  {
    c as int - '0' as int
  }

  function DigitChar(d: nat): (c: char)
    requires d < 10
    ensures IsDigit(c) && DigitValue(c) == d
  {
    (d + '0' as int) as char
  }

  predicate AllDigits(s: string)
  {
    forall k :: 0 <= k < |s| ==> IsDigit(s[k])
  }

  /** Value of the decimal digits `ds` read left to right after `acc`. */
  function ValueFrom(ds: string, acc: int): int
    requires AllDigits(ds)
  {
    if ds == [] then acc else ValueFrom(ds[1..], acc * 10 + DigitValue(ds[0]))
  }

  /** The decimal number written by `ds`. */
  function DigitsValue(ds: string): nat
    requires AllDigits(ds)
  {
    ValueFromNonNegative(ds, 0);
    ValueFrom(ds, 0)
  }

  lemma {:induction false} ValueFromNonNegative(ds: string, acc: int)
    requires AllDigits(ds) && acc >= 0
    ensures ValueFrom(ds, acc) >= acc
  {
    if ds != [] {
      ValueFromNonNegative(ds[1..], acc * 10 + DigitValue(ds[0]));
    }
  }

  lemma {:induction false} ValueFromSnoc(ds: string, c: char, acc: int)
    requires AllDigits(ds) && IsDigit(c)
    ensures AllDigits(ds + [c])
    ensures ValueFrom(ds + [c], acc) == ValueFrom(ds, acc) * 10 + DigitValue(c)
  {
    if ds == [] {
      assert ds + [c] == [c];
    } else {
      assert (ds + [c])[1..] == ds[1..] + [c];
      ValueFromSnoc(ds[1..], c, acc * 10 + DigitValue(ds[0]));
    }
  }

  /** `n.to_string()` for a non-negative integer: no sign, no leading zeros. */
  function NatToString(n: nat): (s: string)
    ensures s != [] && AllDigits(s)
  {
    if n < 10 then [DigitChar(n)] else NatToString(n / 10) + [DigitChar(n % 10)]
  }

  /** `x.to_string()` / `format!("{}", x)` for any integer. */
  function IntToString(x: int): (s: string)
    ensures s != []
  {
    if x < 0 then "-" + NatToString(-x) else NatToString(x)
  }

  /** Reading back the digits printed for `n` gives `n`. */
  lemma {:induction false} DigitsOfNatToString(n: nat)
    ensures DigitsValue(NatToString(n)) == n
  {
    if n < 10 {
      var s := NatToString(n);
      assert s[1..] == [];
      assert ValueFrom(s, 0) == ValueFrom(s[1..], DigitValue(s[0]));
    } else {
      DigitsOfNatToString(n / 10);
      ValueFromSnoc(NatToString(n / 10), DigitChar(n % 10), 0);
    }
  }

  // ----- str::parse for integers -----

  datatype IntErrorKind = Empty | InvalidDigit | PosOverflow | NegOverflow

  /** `std::num::ParseIntError` */
  datatype ParseIntError = ParseIntError(kind: IntErrorKind)

  /** The digit loop of `from_str_radix` (radix 10), accumulating towards
      `hi` when positive and towards `lo` when negative, with checked arithmetic. */
  function ParseDigits(ds: string, acc: int, positive: bool, lo: int, hi: int): Result<int, ParseIntError>
  {
    if ds == [] then Ok(acc)
    else if !IsDigit(ds[0]) then Err(ParseIntError(InvalidDigit))
    else
      var next := if positive then acc * 10 + DigitValue(ds[0]) else acc * 10 - DigitValue(ds[0]);
      if positive && next > hi then Err(ParseIntError(PosOverflow))
      else if !positive && next < lo then Err(ParseIntError(NegOverflow))
      else ParseDigits(ds[1..], next, positive, lo, hi)
  }

  /** `str::parse::<T>()` for an integer type whose range is `lo..=hi`
      (`lo < 0` for signed types): an optional sign, then decimal digits. */
  function ParseInt(s: string, lo: int, hi: int): Result<int, ParseIntError>
  {
    if s == [] then Err(ParseIntError(Empty))
    else if (s[0] == '+' || s[0] == '-') && |s| == 1 then Err(ParseIntError(InvalidDigit))
    else if s[0] == '+' then ParseDigits(s[1..], 0, true, lo, hi)
    else if s[0] == '-' && lo < 0 then ParseDigits(s[1..], 0, false, lo, hi)
    else ParseDigits(s, 0, true, lo, hi)
  }

  function ParseI32(s: string): Result<int, ParseIntError> { ParseInt(s, I32_MIN, I32_MAX) }
  function ParseU8(s: string): Result<int, ParseIntError> { ParseInt(s, 0, U8_MAX) }
  function ParseU64(s: string): Result<int, ParseIntError> { ParseInt(s, 0, U64_MAX) }

  /** The textual shape `parse` accepts: an optional sign ('-' only for signed
      types) followed by at least one decimal digit. */
  predicate WellFormed(s: string, signed: bool)
  {
    if s != [] && (s[0] == '+' || (signed && s[0] == '-')) then s[1..] != [] && AllDigits(s[1..])
    else s != [] && AllDigits(s)
  }

  /** The value a well-formed string denotes. */
  function Denoted(s: string, signed: bool): int
    requires WellFormed(s, signed)
  {
    if s[0] == '+' then DigitsValue(s[1..])
    else if signed && s[0] == '-' then -(DigitsValue(s[1..]) as int)
    else DigitsValue(s)
  }

  /** Positive accumulation succeeds exactly when the final value fits. */
  lemma {:induction false} ParseDigitsPositive(ds: string, acc: int, lo: int, hi: int)
    requires AllDigits(ds) && 0 <= acc <= hi
    ensures ParseDigits(ds, acc, true, lo, hi) ==
      if ValueFrom(ds, acc) <= hi then Ok(ValueFrom(ds, acc)) else Err(ParseIntError(PosOverflow))
  {
    if ds != [] {
      var next := acc * 10 + DigitValue(ds[0]);
      if next > hi {
        ValueFromNonNegative(ds[1..], next);
      } else {
        ParseDigitsPositive(ds[1..], next, lo, hi);
      }
    }
  }

  /** Negative accumulation succeeds exactly when the final (negated) value fits. */
  lemma {:induction false} ParseDigitsNegative(ds: string, acc: int, lo: int, hi: int)
    requires AllDigits(ds) && lo <= acc <= 0
    ensures ParseDigits(ds, acc, false, lo, hi) ==
      if -ValueFrom(ds, -acc) >= lo then Ok(-ValueFrom(ds, -acc)) else Err(ParseIntError(NegOverflow))
  {
    if ds != [] {
      var next := acc * 10 - DigitValue(ds[0]);
      assert -next == (-acc) * 10 + DigitValue(ds[0]);
      if next < lo {
        ValueFromNonNegative(ds[1..], -next);
      } else {
        ParseDigitsNegative(ds[1..], next, lo, hi);
      }
    }
  }

  /** A non-digit makes the digit loop fail, whatever the accumulator. */
  lemma {:induction false} ParseDigitsRejectsNonDigit(ds: string, acc: int, positive: bool, lo: int, hi: int)
    requires !AllDigits(ds)
    ensures ParseDigits(ds, acc, positive, lo, hi).Err?
  {
    if IsDigit(ds[0]) {
      assert !AllDigits(ds[1..]) by {
        var k :| 0 <= k < |ds| && !IsDigit(ds[k]);
        assert ds[1..][k - 1] == ds[k];
      }
      var next := if positive then acc * 10 + DigitValue(ds[0]) else acc * 10 - DigitValue(ds[0]);
      if !(positive && next > hi) && !(!positive && next < lo) {
        ParseDigitsRejectsNonDigit(ds[1..], next, positive, lo, hi);
      }
    }
  }

  /** `parse` succeeds exactly on well-formed text whose value is in range, and
      then returns that value. */
  lemma ParseIntCharacterization(s: string, lo: int, hi: int)
    requires lo <= 0 < hi
    ensures ParseInt(s, lo, hi).Ok? <==> WellFormed(s, lo < 0) && lo <= Denoted(s, lo < 0) <= hi
    ensures ParseInt(s, lo, hi).Ok? ==> ParseInt(s, lo, hi).value == Denoted(s, lo < 0)
  {
    var signed := lo < 0;
    if s == [] || ((s[0] == '+' || s[0] == '-') && |s| == 1) {
      if s != [] && s[0] == '-' && !signed {
        assert !IsDigit(s[0]);
      }
    } else {
      var ds := if s[0] == '+' || (s[0] == '-' && signed) then s[1..] else s;
      var positive := !(s[0] == '-' && signed);
      if AllDigits(ds) {
        if positive {
          ParseDigitsPositive(ds, 0, lo, hi);
        } else {
          ParseDigitsNegative(ds, 0, lo, hi);
        }
        ValueFromNonNegative(ds, 0);
      } else {
        ParseDigitsRejectsNonDigit(ds, 0, positive, lo, hi);
        if s[0] == '-' && !signed {
          assert !AllDigits(s) by { assert !IsDigit(s[0]); }
        }
      }
    }
  }

  /** Round trip: parsing what `to_string` printed gives the number back,
      for every value of the target type. */
  lemma ParseIntToString(x: int, lo: int, hi: int)
    requires lo <= 0 < hi && lo <= x <= hi
    ensures ParseInt(IntToString(x), lo, hi) == Ok(x)
  {
    var s := IntToString(x);
    if x < 0 {
      DigitsOfNatToString(-x);
      assert s[1..] == NatToString(-x);
      assert WellFormed(s, lo < 0) && Denoted(s, lo < 0) == x;
    } else {
      DigitsOfNatToString(x);
      assert IsDigit(s[0]);
      assert WellFormed(s, lo < 0) && Denoted(s, lo < 0) == x;
    }
    ParseIntCharacterization(s, lo, hi);
  }
}
