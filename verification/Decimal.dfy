/** Rounding a double to at most nine decimals, ties away from zero, by finding
    ties in the exact binary rational. */
module Decimal {
  import opened Common

  const TWO_52 := 0x10_0000_0000_0000
  const TWO_63 := 0x8000_0000_0000_0000

  /** The bits of a double, and of a magnitude. */
  type Bits = b: int | 0 <= b < 2 * TWO_63
  type Magnitude = b: int | 0 <= b < TWO_63

  function Pow2(n: nat): (p: nat)
    ensures p > 0
  {
    if n == 0 then 1 else 2 * Pow2(n - 1)
  }

  function Pow5(n: nat): (p: nat)
    ensures p > 0 && p % 2 == 1
  {
    if n == 0 then 1 else 5 * Pow5(n - 1)
  }

  // ----- What the bits of a magnitude mean -----

  function Exponent(m: Magnitude): nat { m / TWO_52 }

  predicate Finite(m: Magnitude) { Exponent(m) < 2047 }

  function Mantissa(m: Magnitude): nat {
    m % TWO_52 + if Exponent(m) == 0 then 0 else TWO_52
  }

  function BinaryExponent(m: Magnitude): int {
    if Exponent(m) == 0 then -1074 else Exponent(m) - 1075
  }

  function Numerator(m: Magnitude, decimals: nat): nat {
    Mantissa(m) * Pow5(decimals)
  }

  function Shift(m: Magnitude, decimals: nat): int {
    -(BinaryExponent(m) + decimals)
  }

  /** m * 10^decimals is exactly Scaled(m, decimals) / Unit(m, decimals). */
  function Scaled(m: Magnitude, decimals: nat): nat {
    var shift := Shift(m, decimals);
    Numerator(m, decimals) * (if shift >= 0 then 1 else Pow2(-shift))
  }

  function Unit(m: Magnitude, decimals: nat): (u: nat)
    ensures u > 0
  {
    var shift := Shift(m, decimals);
    if shift >= 0 then Pow2(shift) else 1
  }

  // ----- The reference: Number.prototype.toFixed -----

  function Distance(num: nat, den: nat, n: nat): nat {
    if n * den >= num then n * den - num else num - n * den
  }

  predicate AsClose(num: nat, den: nat, n: nat, k: nat) {
    || Distance(num, den, n) < Distance(num, den, k)
    || (Distance(num, den, n) == Distance(num, den, k) && k <= n)
  }

  /** The closest integer; of two, the larger. */
  ghost predicate ClosestUp(num: nat, den: nat, n: nat) {
    forall k: nat :: AsClose(num, den, n, k)
  }

  const TEN_21: nat := 1_000_000_000_000_000_000_000

  /** At least 10^21. */
  predicate Huge(m: Magnitude) {
    Scaled(m, 0) >= TEN_21 * Unit(m, 0)
  }

  /** A sign and n / 10^decimals written out; or the shortest exponent form of a
      number from 10^21 on, which is never the same string. */
  datatype Text =
    | FixedPoint(negative: bool, units: nat, decimals: nat)
    | ExponentForm(negative: bool, magnitude: Magnitude)

  /** Section 21.1.3.3 of ECMA-262, for finite numbers and up to nine decimals.
      A sign is written for numbers below zero, so not for minus zero. */
  ghost predicate IsToFixed(value: Bits, decimals: nat, text: Text) {
    var m: Magnitude := value % TWO_63;
    if Huge(m) then text == ExponentForm(value >= TWO_63, m)
    else RoundsHalfAway(value, decimals, text)
  }

  /** The number written out at this many decimals, rounded half away from zero. */
  ghost predicate RoundsHalfAway(value: Bits, decimals: nat, text: Text) {
    var m: Magnitude := value % TWO_63;
    && text.FixedPoint? && text.decimals == decimals && text.negative == (value >= TWO_63 && m != 0)
    && ClosestUp(Scaled(m, decimals), Unit(m, decimals), text.units)
  }

  /** A formatter that rounds to nearest may break ties as it likes. */
  predicate Nearest(num: nat, den: nat, n: nat) {
    2 * Distance(num, den, n) <= den
  }

  ghost predicate NearestFormatter(format: (Magnitude, nat) -> nat) {
    forall m: Magnitude, decimals: nat :: Finite(m) ==>
      Nearest(Scaled(m, decimals), Unit(m, decimals), format(m, decimals))
  }

  // ----- The code -----

  /** Masking with 2^shift - 1 is written as a remainder. */
  predicate Tie(m: Magnitude, decimals: nat) {
    var shift := Shift(m, decimals);
    1 <= shift < 128 && Numerator(m, decimals) % Pow2(shift) == Pow2(shift - 1)
  }

  function Rounded(m: Magnitude, decimals: nat): nat {
    if Tie(m, decimals) then m + 1 else m
  }

  function FixedDecimal(value: Bits, decimals: nat, format: (Magnitude, nat) -> nat): Option<Text>
    ensures FixedDecimal(value, decimals, format).Some? <==> Finite(value % TWO_63) && decimals <= 9
  {
    var m: Magnitude := value % TWO_63;
    if !Finite(m) || decimals > 9 then None
    else
      TieIsSmall(m, decimals);
      var negative := value >= TWO_63 && (Tie(m, decimals) || m != 0);
      Some(FixedPoint(negative, format(Rounded(m, decimals), decimals), decimals))
  }

  // ----- Powers -----

  lemma {:induction false} Pow2Add(a: nat, b: nat)
    ensures Pow2(a + b) == Pow2(a) * Pow2(b)
  {
    if b > 0 {
      Pow2Add(a, b - 1);
    }
  }

  lemma {:induction false} Pow2Grows(a: nat, b: nat)
    requires a <= b
    ensures Pow2(a) <= Pow2(b)
  {
    if a < b {
      Pow2Grows(a, b - 1);
    }
  }

  lemma Pow2At74()
    ensures Pow2(74) == 0x400_0000_0000_0000_0000
  {
    Pow2At64();
    Pow2Add(64, 8);
    Pow2Add(72, 2);
    assert Pow2(8) == 256;
    assert Pow2(2) == 4;
  }

  lemma Pow2At64()
    ensures Pow2(64) == 0x1_0000_0000_0000_0000
  {
    assert Pow2(8) == 256;
    Pow2Add(8, 8);
    Pow2Add(16, 16);
    Pow2Add(32, 32);
  }

  lemma Pow5Bound(decimals: nat)
    requires decimals <= 9
    ensures Pow5(decimals) <= 1953125
  {
    assert Pow5(9) == 1953125;
  }

  /** The product fits 128 bits with room to spare. */
  lemma NumeratorFits(m: Magnitude, decimals: nat)
    requires decimals <= 9
    ensures Numerator(m, decimals) < Pow2(74)
  {
    Pow5Bound(decimals);
    Pow2At74();
    Multiply(Mantissa(m), 2 * TWO_52, Pow5(decimals), 1953125);
  }

  lemma Multiply(a: nat, a': nat, b: nat, b': nat)
    requires a < a' && b <= b' && b' > 0
    ensures a * b < a' * b'
  {
    assert a * b <= a * b' by { Monotone(a, b, b'); }
    assert a * b' < a' * b';
  }

  lemma Monotone(a: nat, b: nat, b': nat)
    requires b <= b'
    ensures a * b <= a * b'
  {
  }

  lemma TieIsSmall(m: Magnitude, decimals: nat)
    requires Finite(m) && decimals <= 9
    ensures Tie(m, decimals) ==> m + 1 < TWO_63 && Exponent(m + 1) < 2047
  {
  }

  // ----- Ties -----

  predicate Halfway(num: nat, den: nat)
    requires den > 0
  {
    2 * (num % den) == den
  }

  lemma SmallRemainder(a: nat, b: nat)
    requires a < b
    ensures a % b == a
  {
  }

  lemma BitTest(numerator: nat, shift: nat)
    requires numerator < Pow2(74) && shift > 0
    ensures Halfway(numerator, Pow2(shift)) <==> shift < 128 && numerator % Pow2(shift) == Pow2(shift - 1)
  {
    var half := Pow2(shift - 1);
    var r := numerator % Pow2(shift);
    assert Halfway(numerator, Pow2(shift)) <==> r == half;
    if shift >= 128 {
      Pow2Grows(74, shift - 1);
      SmallRemainder(numerator, Pow2(shift));
    }
  }

  /** The bit test finds exactly the decimal ties; no tie has a shift of 128 or more. */
  lemma TieIsHalfway(m: Magnitude, decimals: nat)
    requires decimals <= 9
    ensures Tie(m, decimals) <==> Halfway(Scaled(m, decimals), Unit(m, decimals))
  {
    var shift := Shift(m, decimals);
    var numerator := Numerator(m, decimals);
    NumeratorFits(m, decimals);
    if shift >= 1 {
      assert Scaled(m, decimals) == numerator && Unit(m, decimals) == Pow2(shift);
      BitTest(numerator, shift);
    } else {
      assert Unit(m, decimals) == 1;
    }
  }

  /** The next magnitude is one unit in the last place up, also when the mantissa
      carries into the exponent. */
  lemma NextMagnitude(m: Magnitude, decimals: nat)
    requires Shift(m, decimals) >= 1 && m + 1 < TWO_63 && Exponent(m + 1) < 2047
    ensures
      || (Unit(m + 1, decimals) == Unit(m, decimals)
          && Scaled(m + 1, decimals) == Scaled(m, decimals) + Pow5(decimals))
      || (2 * Unit(m + 1, decimals) == Unit(m, decimals)
          && 2 * Scaled(m + 1, decimals) == Scaled(m, decimals) + Pow5(decimals))
  {
    var e, f := Exponent(m), m % TWO_52;
    assert m == e * TWO_52 + f;
    if f + 1 < TWO_52 || e == 0 {
      assert Mantissa(m + 1) == Mantissa(m) + 1 && BinaryExponent(m + 1) == BinaryExponent(m);
      Distribute(Mantissa(m), Pow5(decimals));
    } else {
      assert Exponent(m + 1) == e + 1 && (m + 1) % TWO_52 == 0;
      assert 2 * Mantissa(m + 1) == Mantissa(m) + 1 && BinaryExponent(m + 1) == BinaryExponent(m) + 1;
      Distribute(Mantissa(m), Pow5(decimals));
      assert 2 * Numerator(m + 1, decimals) == (2 * Mantissa(m + 1)) * Pow5(decimals);
    }
  }

  lemma Distribute(a: nat, b: nat)
    ensures (a + 1) * b == a * b + b
  {
  }

  // ----- Nearest integers -----

  /** Where an integer lies relative to num / den. */
  lemma DistanceFrom(num: nat, den: nat, n: nat)
    requires den > 0
    ensures var q, r := num / den, num % den;
      && (n == q ==> Distance(num, den, n) == r)
      && (n == q + 1 ==> Distance(num, den, n) == den - r)
      && (n < q ==> Distance(num, den, n) >= den + r)
      && (n > q + 1 ==> Distance(num, den, n) >= 2 * den - r)
  {
    var q, r := num / den, num % den;
    assert num == q * den + r;
    if n < q {
      Monotone(den, n, q - 1);
      assert n * den <= (q - 1) * den == q * den - den;
    } else if n > q + 1 {
      Monotone(den, q + 2, n);
      assert n * den >= (q + 2) * den == q * den + 2 * den;
    } else if n == q + 1 {
      assert n * den == q * den + den;
    }
  }

  /** Round half up, away from zero on magnitudes. */
  function HalfUp(num: nat, den: nat): nat
    requires den > 0
  {
    if 2 * (num % den) >= den then num / den + 1 else num / den
  }

  /** The closest integer, the larger of two, is the one that rounds half up. */
  lemma ClosestUpIsHalfUp(num: nat, den: nat, n: nat)
    requires den > 0
    ensures ClosestUp(num, den, n) <==> n == HalfUp(num, den)
  {
    var best := HalfUp(num, den);
    DistanceFrom(num, den, best);
    DistanceFrom(num, den, n);
    forall k: nat
      ensures AsClose(num, den, best, k)
    {
      DistanceFrom(num, den, k);
    }
    assert ClosestUp(num, den, best);
    assert ClosestUp(num, den, n) ==> AsClose(num, den, n, best);
  }

  /** Away from a tie the nearest integer is unique. */
  lemma NearestOffTie(num: nat, den: nat, n: nat)
    requires den > 0 && Nearest(num, den, n) && !Halfway(num, den)
    ensures n == HalfUp(num, den)
  {
    DistanceFrom(num, den, n);
  }

  lemma MultiplesBeside(den: nat, q: nat, n: nat)
    ensures n <= q ==> n * den <= q * den
    ensures n == q + 1 ==> n * den == q * den + den
    ensures n > q + 1 ==> n * den >= q * den + 2 * den
  {
    if n <= q {
      Monotone(den, n, q);
    } else if n > q + 1 {
      Monotone(den, q + 2, n);
      assert (q + 2) * den == q * den + 2 * den;
    } else {
      assert n * den == q * den + den;
    }
  }

  lemma StepOverTie(below: nat, multiple: nat, den: nat, half: nat, step: nat, q: nat, n: nat)
    requires 2 * half == den && 0 < step != den
    requires n <= q ==> multiple <= below
    requires n == q + 1 ==> multiple == below + den
    requires n > q + 1 ==> multiple >= below + 2 * den
    requires var num := below + half + step;
      2 * (if multiple >= num then multiple - num else num - multiple) <= den
    ensures n == q + 1 <==> step < den
  {
  }

  /** From a tie, a step up of less than the unit moves every nearest integer to
      the upper neighbour; a longer step moves them past it. */
  lemma NearestAfterStep(num: nat, den: nat, step: nat, n: nat)
    requires den > 0 && Halfway(num, den) && step > 0 && step != den
    requires Nearest(num + step, den, n)
    ensures n == HalfUp(num, den) <==> step < den
  {
    var q := num / den;
    assert num == q * den + num % den;
    MultiplesBeside(den, q, n);
    StepOverTie(q * den, n * den, den, num % den, step, q, n);
  }

  lemma NearestHalved(num: nat, den: nat, n: nat)
    ensures Nearest(num, den, n) <==> Nearest(2 * num, 2 * den, n)
  {
    assert n * (2 * den) == 2 * (n * den);
  }

  // ----- The main results -----

  /** Is the unit in the last place, times 10^decimals, below one? */
  predicate StepBelowUnit(m: Magnitude, decimals: nat) {
    Pow5(decimals) < Unit(m, decimals)
  }

  lemma TieRounds(m: Magnitude, decimals: nat, n: nat)
    requires Tie(m, decimals) && decimals <= 9 && Finite(m)
    requires m + 1 < TWO_63 && Nearest(Scaled(m + 1, decimals), Unit(m + 1, decimals), n)
    ensures n == HalfUp(Scaled(m, decimals), Unit(m, decimals)) <==> StepBelowUnit(m, decimals)
  {
    var num, den, step := Scaled(m, decimals), Unit(m, decimals), Pow5(decimals);
    var shift := Shift(m, decimals);
    assert den == 2 * Pow2(shift - 1);
    TieIsSmall(m, decimals);
    TieIsHalfway(m, decimals);
    NextMagnitude(m, decimals);
    NearestHalved(Scaled(m + 1, decimals), Unit(m + 1, decimals), n);
    NearestAfterStep(num, den, step, n);
  }

  /** The code rounds half away from zero exactly when the value is no tie, or its
      unit in the last place is below one at this precision: whatever rule the
      nearest-rounding formatter has for its own ties. */
  lemma FixedDecimalRounds(value: Bits, decimals: nat, format: (Magnitude, nat) -> nat)
    requires NearestFormatter(format) && decimals <= 9
    requires var m: Magnitude := value % TWO_63; Finite(m)
    ensures RoundsHalfAway(value, decimals, FixedDecimal(value, decimals, format).value) <==>
      var m: Magnitude := value % TWO_63; !Tie(m, decimals) || StepBelowUnit(m, decimals)
  {
    var m: Magnitude := value % TWO_63;
    TieIsSmall(m, decimals);
    var n := format(Rounded(m, decimals), decimals);
    ClosestUpIsHalfUp(Scaled(m, decimals), Unit(m, decimals), n);
    if Tie(m, decimals) {
      TieRounds(m, decimals, n);
    } else {
      TieIsHalfway(m, decimals);
      NearestOffTie(Scaled(m, decimals), Unit(m, decimals), n);
    }
  }

  /** The code agrees with toFixed exactly when, besides, the value is below 10^21:
      from there on toFixed turns to an exponent and the code still writes all digits. */
  lemma FixedDecimalIsToFixed(value: Bits, decimals: nat, format: (Magnitude, nat) -> nat)
    requires NearestFormatter(format) && decimals <= 9
    requires var m: Magnitude := value % TWO_63; Finite(m)
    ensures IsToFixed(value, decimals, FixedDecimal(value, decimals, format).value) <==>
      var m: Magnitude := value % TWO_63; !Huge(m) && (!Tie(m, decimals) || StepBelowUnit(m, decimals))
  {
    FixedDecimalRounds(value, decimals, format);
  }

  lemma SmallTieStep(m: Magnitude, decimals: nat)
    requires Tie(m, decimals) && decimals <= 9
    requires decimals == 0 || Scaled(m, decimals) < TWO_52 * Unit(m, decimals)
    ensures StepBelowUnit(m, decimals)
  {
    var step, unit := Pow5(decimals), Unit(m, decimals);
    assert unit == 2 * Pow2(Shift(m, decimals) - 1);
    if decimals > 0 && step >= unit {
      assert Mantissa(m) >= TWO_52;
      assert Scaled(m, decimals) == Mantissa(m) * step;
      Monotone(TWO_52, unit, step);
      Monotone(step, TWO_52, Mantissa(m));
      assert false;
    }
  }

  lemma FractionsAreSmall(m: Magnitude)
    ensures Shift(m, 0) >= 0 ==> !Huge(m)
  {
    assert Mantissa(m) < 2 * TWO_52;
    assert Shift(m, 0) >= 0 ==> Scaled(m, 0) == Mantissa(m);
    Monotone(TEN_21, 1, Unit(m, 0));
  }

  /** From 10^21 on a double is a whole number of at least 2^52 of its units. */
  lemma HugeIsLarge(m: Magnitude, decimals: nat)
    requires Huge(m)
    ensures Shift(m, decimals) < 0 && Unit(m, decimals) == 1 && Scaled(m, decimals) >= TWO_52
  {
    FractionsAreSmall(m);
    assert Mantissa(m) >= TWO_52;
    Monotone(Mantissa(m), 1, Pow5(decimals));
    Monotone(Numerator(m, decimals), 1, Pow2(-Shift(m, decimals)));
  }

  /** Below 2^52 at the printed scale the code agrees with toFixed; on whole numbers
      it rounds half away from zero always, and agrees exactly below 10^21. */
  lemma RightBelowTwo52(value: Bits, decimals: nat, format: (Magnitude, nat) -> nat)
    requires NearestFormatter(format) && decimals <= 9
    requires var m: Magnitude := value % TWO_63; Finite(m)
    ensures var m: Magnitude := value % TWO_63;
      var text := FixedDecimal(value, decimals, format).value;
      && (Scaled(m, decimals) < TWO_52 * Unit(m, decimals) ==> IsToFixed(value, decimals, text))
      && (decimals == 0 ==> RoundsHalfAway(value, 0, text) && (IsToFixed(value, 0, text) <==> !Huge(m)))
  {
    var m: Magnitude := value % TWO_63;
    FixedDecimalRounds(value, decimals, format);
    FixedDecimalIsToFixed(value, decimals, format);
    if Huge(m) {
      HugeIsLarge(m, decimals);
    }
    if Tie(m, decimals) && (decimals == 0 || Scaled(m, decimals) < TWO_52 * Unit(m, decimals)) {
      SmallTieStep(m, decimals);
    }
  }

  /** 2^50 + 0.25 at one decimal is a tie whose unit in the last place is 2.5 at
      that scale: the code overshoots, whatever the formatter. */
  lemma OvershootsAboveTwo52(format: (Magnitude, nat) -> nat)
    requires NearestFormatter(format)
    ensures var value: Magnitude := (1023 + 50) * TWO_52 + 1;
      && Tie(value, 1) && Scaled(value, 1) == 5 * (TWO_52 + 1) && Unit(value, 1) == 2
      && !RoundsHalfAway(value, 1, FixedDecimal(value, 1, format).value)
  {
    var value: Magnitude := (1023 + 50) * TWO_52 + 1;
    assert Pow2(0) == 1 && Pow2(1) == 2 && Pow5(1) == 5;
    FixedDecimalRounds(value, 1, format);
  }

  /** The bits of 10^21 as a double. */
  const FIRST_HUGE: Magnitude := 1092 * TWO_52 + (7_629_394_531_250_000 - TWO_52)

  lemma TenTo21(m: Magnitude)
    requires m == FIRST_HUGE
    ensures Finite(m) && Scaled(m, 0) == TEN_21 && Unit(m, 0) == 1 && Huge(m) && m > 0 && !Huge(m - 1)
  {
    Pow2At17();
    assert Mantissa(m) == 7_629_394_531_250_000 && Shift(m, 0) == -17;
    assert Mantissa(m - 1) == 7_629_394_531_249_999 && Shift(m - 1, 0) == -17;
    assert Pow5(0) == 1;
  }

  /** From 10^21 on the code writes all digits, rightly rounded, and toFixed never. */
  lemma DigitsWhereToFixedHasAnExponent(value: Bits, decimals: nat, format: (Magnitude, nat) -> nat)
    requires NearestFormatter(format) && decimals <= 9
    requires var m: Magnitude := value % TWO_63; Finite(m) && Huge(m)
    ensures var text := FixedDecimal(value, decimals, format).value;
      RoundsHalfAway(value, decimals, text) && !IsToFixed(value, decimals, text)
  {
    FixedDecimalRounds(value, decimals, format);
    FixedDecimalIsToFixed(value, decimals, format);
    HugeIsLarge(value % TWO_63, decimals);
  }

  /** 10^21 is a double, and the first one concerned. */
  lemma DigitsFromTenTo21(m: Magnitude, decimals: nat, format: (Magnitude, nat) -> nat)
    requires NearestFormatter(format) && decimals <= 9 && m == FIRST_HUGE
    ensures Scaled(m, 0) == TEN_21 && Unit(m, 0) == 1 && m > 0 && !Huge(m - 1)
    ensures FixedDecimal(m, decimals, format).Some? && !IsToFixed(m, decimals, FixedDecimal(m, decimals, format).value)
  {
    TenTo21(m);
    assert m % TWO_63 == m;
    DigitsWhereToFixedHasAnExponent(m, decimals, format);
  }

  lemma Pow2At17()
    ensures Pow2(17) == 131072
  {
    assert Pow2(8) == 256;
    Pow2Add(8, 8);
    Pow2Add(16, 1);
    assert Pow2(1) == 2;
  }
}
