/** The distance sensor's timeout registers: a byte shifted by a byte, plus one, and the
    conversions between microseconds and macro periods. Machine words are integers
    with their width written out. */
module TimeoutCode {
  import opened Sums

  const WORD := 0x1_0000_0000

  /** m shifted left by e bits, in a word wide enough. */
  function Shifted(m: nat, e: nat): nat {
    if e == 0 then m else 2 * Shifted(m, e - 1)
  }

  function Pow2(e: nat): nat {
    Shifted(1, e)
  }

  lemma {:induction false} ShiftedSum(a: nat, b: nat, e: nat)
    ensures Shifted(a + b, e) == Shifted(a, e) + Shifted(b, e)
  {
    if e > 0 {
      ShiftedSum(a, b, e - 1);
    }
  }

  lemma {:induction false} ShiftedTimes128(e: nat)
    ensures Shifted(128, e) == 128 * Pow2(e)
  {
    if e > 0 {
      ShiftedTimes128(e - 1);
    }
  }

  /** How often v must be halved to fit a byte. */
  function Exponent(v: nat): nat {
    if v < 256 then 0 else 1 + Exponent(v / 2)
  }

  /** What is left of it then. */
  function Mantissa(v: nat): nat {
    if v < 256 then v else Mantissa(v / 2)
  }

  /** Mantissa and exponent are v divided by a power of two, the smallest that leaves a byte. */
  lemma {:induction false} Halved(v: nat)
    ensures Shifted(Mantissa(v), Exponent(v)) <= v < Shifted(Mantissa(v) + 1, Exponent(v))
    ensures Mantissa(v) < 256 && (Exponent(v) > 0 ==> Mantissa(v) >= 128)
  {
    if v >= 256 {
      Halved(v / 2);
    }
  }

  lemma {:induction false} ExponentBound(v: nat, n: nat)
    requires v < Shifted(256, n)
    ensures Exponent(v) <= n
  {
    if v >= 256 {
      ExponentBound(v / 2, n - 1);
    }
  }

  lemma WordBits()
    ensures Shifted(256, 24) == WORD
  {
    assert Shifted(256, 4) == 0x1000;
    assert Shifted(256, 8) == 0x1_0000;
    assert Shifted(256, 12) == 0x10_0000;
    assert Shifted(256, 16) == 0x100_0000;
    assert Shifted(256, 20) == 0x1000_0000;
  }

  /** The register value of a timeout. */
  function Encode(t: nat): nat {
    if t == 0 then 0 else 256 * Exponent(t - 1) + Mantissa(t - 1)
  }

  /** The code's loop: halve until only the low byte is left. */
  method EncodeTimeout(t: nat) returns (r: nat)
    requires t < WORD
    ensures r == Encode(t) && r < 0x1_0000
  {
    if t == 0 {
      return 0;
    }
    var ls: nat, ms: nat := t - 1, 0;
    while ls >= 256
      invariant Exponent(t - 1) == ms + Exponent(ls) && Mantissa(t - 1) == Mantissa(ls)
    {
      ls := ls / 2;
      ms := ms + 1;
    }
    EncodingFits(t);
    r := 256 * ms + ls;
  }

  /** The timeout of a register value whose shift a 32-bit word allows. */
  function Decode(r: nat): nat
    requires r / 256 < 32
  {
    (Shifted(r % 256, r / 256) % WORD + 1) % WORD
  }

  /** Encodings are 16-bit, their shift is at most 24. */
  lemma EncodingFits(t: nat)
    requires t < WORD
    ensures Encode(t) < 0x1_0000 && Encode(t) / 256 <= 24
    ensures t > 0 ==> Encode(t) / 256 == Exponent(t - 1) && Encode(t) % 256 == Mantissa(t - 1)
  {
    if t > 0 {
      Halved(t - 1);
      WordBits();
      ExponentBound(t - 1, 24);
    }
  }

  /** Decoding an encoding loses nothing to the word size. */
  lemma DecodedValue(t: nat)
    requires 1 <= t < WORD
    ensures Encode(t) / 256 < 32
    ensures Decode(Encode(t)) == Shifted(Mantissa(t - 1), Exponent(t - 1)) + 1
  {
    EncodingFits(t);
    Halved(t - 1);
  }

  /** Decoding an encoding never exceeds the timeout and falls short of it by less than
      one unit of the exponent, which is at most a 128th of the timeout. */
  lemma RoundTripError(t: nat)
    requires 1 <= t < WORD
    ensures var m := Exponent(t - 1);
            && Encode(t) / 256 == m <= 24
            && 0 <= t - Decode(Encode(t)) < Pow2(m)
            && (m > 0 ==> 128 * Pow2(m) <= t - 1)
  {
    EncodingFits(t);
    DecodedValue(t);
    var v := t - 1;
    Halved(v);
    var m, e := Mantissa(v), Exponent(v);
    ShiftedSum(m, 1, e);
    if e > 0 {
      ShiftedSum(128, m - 128, e);
      ShiftedTimes128(e);
    }
  }

  lemma {:induction false} ExactForm(m: nat, e: nat)
    requires m < 256 && (e > 0 ==> m >= 128)
    ensures Exponent(Shifted(m, e)) == e && Mantissa(Shifted(m, e)) == m
    ensures Shifted(m, e) >= m
  {
    if e > 0 {
      ExactForm(m, e - 1);
    }
  }

  /** Encoding is the identity on what decodes an encoding. */
  lemma EncodeOfDecode(t: nat)
    requires 1 <= t < WORD
    ensures Encode(t) / 256 < 32
    ensures Encode(Decode(Encode(t))) == Encode(t)
  {
    DecodedValue(t);
    Halved(t - 1);
    ExactForm(Mantissa(t - 1), Exponent(t - 1));
  }

  lemma {:induction false} MonotoneFloor(v: nat, w: nat)
    requires v <= w
    ensures Shifted(Mantissa(v), Exponent(v)) <= Shifted(Mantissa(w), Exponent(w))
  {
    if v >= 256 {
      MonotoneFloor(v / 2, w / 2);
    } else if w >= 256 {
      Halved(w);
      AtLeast256(Mantissa(w), Exponent(w));
    }
  }

  lemma {:induction false} AtLeast256(m: nat, e: nat)
    requires m >= 128 && e > 0
    ensures Shifted(m, e) >= 256
  {
    if e > 1 {
      AtLeast256(m, e - 1);
    }
  }

  /** A longer timeout never decodes to a shorter one. */
  lemma RoundTripMonotone(t: nat, u: nat)
    requires 1 <= t <= u < WORD
    ensures Encode(t) / 256 < 32 && Encode(u) / 256 < 32
    ensures Decode(Encode(t)) <= Decode(Encode(u))
  {
    DecodedValue(t);
    DecodedValue(u);
    MonotoneFloor(t - 1, u - 1);
  }

  // ---- microseconds and macro periods --------------------------------------

  /** Rounded, in 64 bits, then cut to 32; the period has twelve fractional bits. */
  function MclksToMicroseconds(mclks: nat, period: nat): nat {
    Rounded(mclks * period)
  }

  function Rounded(product: nat): nat {
    (product + 0x800) / 4096 % WORD
  }

  /** Rounded, in 32 bits. */
  function MicrosecondsToMclks(us: nat, period: nat): nat
    requires period > 0
  {
    (us * 4096 % WORD + period / 2) % WORD / period
  }

  /** There and back errs by at most a 8192th of the period and a half, as long as the
      shifted timeout fits its word. */
  lemma ConversionError(us: nat, period: nat)
    requires 0 < period < WORD && us * 4096 + period / 2 < WORD
    ensures var back := MclksToMicroseconds(MicrosecondsToMclks(us, period), period);
            && 8192 * (back - us) <= period + 4096
            && 8192 * (us - back) <= period + 4096
  {
    var n := us * 4096 + period / 2;
    Unwrapped(us, period);
    DivideBack(n, period);
    var product := n / period * period;
    RoundedBack(us, period, product);
    assert MclksToMicroseconds(n / period, period) == Rounded(product);
  }

  lemma Unwrapped(us: nat, period: nat)
    requires 0 < period && us * 4096 + period / 2 < WORD
    ensures MicrosecondsToMclks(us, period) == (us * 4096 + period / 2) / period
  {
    SmallMod(us * 4096);
    SmallMod(us * 4096 + period / 2);
  }

  lemma SmallMod(x: nat)
    requires x < WORD
    ensures x % WORD == x
  {
  }

  lemma RoundedBack(us: nat, period: nat, product: nat)
    requires us * 4096 + period / 2 - period < product <= us * 4096 + period / 2 < WORD
    ensures 8192 * (Rounded(product) - us) <= period + 4096 && 8192 * (us - Rounded(product)) <= period + 4096
  {
  }

  lemma DivideBack(n: nat, d: nat)
    requires d > 0
    ensures n - d < n / d * d <= n && n / d * d >= 0
  {
  }

  /** The error of the round trip is within a 8192th of the period and a half. */
  ghost predicate Accurate(us: nat, period: nat)
    requires period > 0
  {
    var back := MclksToMicroseconds(MicrosecondsToMclks(us, period), period);
    8192 * (back - us) <= period + 4096 && 8192 * (us - back) <= period + 4096
  }

  /** The round trip is accurate exactly when the shifted and half-rounded timeout
      fits its 32-bit word. */
  lemma AccurateExactlyWhen(us: nat, period: nat)
    requires 0 < period <= WORD - 8192
    ensures Accurate(us, period) <==> us * 4096 + period / 2 < WORD
  {
    if us * 4096 + period / 2 < WORD {
      ConversionError(us, period);
    } else {
      var n := (us * 4096 % WORD + period / 2) % WORD;
      var product := n / period * period;
      assert MclksToMicroseconds(MicrosecondsToMclks(us, period), period) == Rounded(product);
      DivideBack(n, period);
      if us * 4096 >= WORD {
        WrappedShift(us, period, product);
      } else {
        WrappedSum(us, period);
        SmallQuotient(n, period);
      }
    }
  }

  /** A shift past the word loses whole multiples of 2^20 microseconds. */
  lemma WrappedShift(us: nat, period: nat, product: nat)
    requires 0 < period <= WORD - 8192 && us * 4096 >= WORD
    requires product <= (us * 4096 % WORD + period / 2) % WORD
    ensures 8192 * (us - Rounded(product)) > period + 4096
  {
    var q, m := us * 4096 / WORD, us * 4096 % WORD;
    assert q >= 1 && us * 4096 == q * WORD + m;
    assert product <= m + period / 2;
    assert 4096 * Rounded(product) <= product + 0x800;
  }

  /** A sum past the word comes to less than one period. */
  lemma WrappedSum(us: nat, period: nat)
    requires 0 < period <= WORD - 8192 && us * 4096 < WORD <= us * 4096 + period / 2
    ensures (us * 4096 % WORD + period / 2) % WORD < period
    ensures 8192 * us > period + 4096
  {
    SmallMod(us * 4096);
    assert (us * 4096 + period / 2) % WORD == us * 4096 + period / 2 - WORD;
  }

  lemma SmallQuotient(n: nat, d: nat)
    requires n < d
    ensures n / d * d == 0
  {
  }

  // ---- what the driver asks for --------------------------------------------

  /** The macro period of an oscillator reading and a VCSEL period register, in 32-bit
      words; the number of VCSEL clocks is a byte. */
  function CalcMacroPeriod(oscillator: nat, vcselPeriod: nat): (period: nat)
    requires 0 < oscillator < 0x1_0000 && vcselPeriod < 0x100
    ensures period < 0x400_0000
  {
    var pll := 0x4000_0000 / oscillator;
    var clocks := (vcselPeriod + 1) * 2 % 0x100;
    (2304 * pll % WORD / 64) * clocks % WORD / 64
  }

  /** The range timeout of a timing budget; None when the driver refuses the budget. */
  function RangeTimeout(budget: nat): (us: Option<nat>)
    ensures us.Some? ==> us.value <= 550000
  {
    if budget <= 4528 || budget - 4528 > 1100000 then None else Some((budget - 4528) / 2)
  }

  /** Every timeout the driver converts, the range timeout of an accepted budget and its
      two constants, is accurate for every macro period it can compute. */
  lemma DriverTimeoutsAreAccurate(budget: nat, us: nat, oscillator: nat, vcselPeriod: nat)
    requires RangeTimeout(budget).Some? && us in {RangeTimeout(budget).value, 1, 1000}
    requires 0 < oscillator < 0x1_0000 && vcselPeriod < 0x100
    ensures var period := CalcMacroPeriod(oscillator, vcselPeriod);
            period > 0 ==> Accurate(us, period)
  {
    var period := CalcMacroPeriod(oscillator, vcselPeriod);
    if period > 0 {
      AccurateExactlyWhen(us, period);
    }
  }

  /** The macro period is not zero, so that the conversions may divide by it, for the
      register values the driver writes and every oscillator reading from 577 up. */
  lemma MacroPeriodIsPositive(oscillator: nat, vcselPeriod: nat)
    requires 577 <= oscillator < 0x1_0000 && vcselPeriod in {0x05, 0x07, 0x09, 0x0B, 0x0D, 0x0F}
    ensures CalcMacroPeriod(oscillator, vcselPeriod) > 0
  {
    var pll, clocks := 0x4000_0000 / oscillator, (vcselPeriod + 1) * 2 % 0x100;
    PllRange(oscillator);
    assert 2304 * pll % WORD == 2304 * pll;
    assert 12 <= clocks <= 32;
    ClocksRange(36 * pll, clocks);
  }

  /** What the macro period comes to for those values: the oscillator's period, cut to 24
      fractional bits, times 2304 for each of the 2 (register + 1) clocks, cut to twelve. */
  lemma MacroPeriodIs(oscillator: nat, vcselPeriod: nat)
    requires 577 <= oscillator < 0x1_0000 && vcselPeriod in {0x05, 0x07, 0x09, 0x0B, 0x0D, 0x0F}
    ensures var period := CalcMacroPeriod(oscillator, vcselPeriod);
            exists pll: nat :: pll * oscillator <= 0x4000_0000 < pll * oscillator + oscillator
              && 4096 * period <= 2304 * pll * (2 * (vcselPeriod + 1)) < 4096 * (period + 1)
  {
    var pll, clocks := 0x4000_0000 / oscillator, 2 * (vcselPeriod + 1);
    PllRange(oscillator);
    DivideBack(0x4000_0000, oscillator);
    assert 2304 * pll % WORD == 2304 * pll && 2304 * pll / 64 == 36 * pll;
    assert (vcselPeriod + 1) * 2 % 0x100 == clocks;
    Cut(pll, clocks, CalcMacroPeriod(oscillator, vcselPeriod));
  }

  lemma Cut(pll: nat, clocks: nat, period: nat)
    requires pll <= 1860904 && 12 <= clocks <= 32 && period == 36 * pll * clocks % WORD / 64
    ensures 4096 * period <= 2304 * pll * clocks < 4096 * (period + 1)
  {
    var x := pll * clocks;
    assert 36 * pll * clocks == 36 * x && 2304 * pll * clocks == 2304 * x;
    assert 0 <= x <= 1860904 * 32 by { Widened(pll, clocks, 32); }
  }

  /** A timing budget is accepted exactly above the guard of 4528 microseconds and up to
      1.1 seconds beyond it, and the range timeout is half of what the guard leaves. */
  lemma TimingBudgetRule(budget: nat)
    ensures var us := RangeTimeout(budget);
            && (us.Some? <==> 4528 < budget <= 1104528)
            && (us.Some? ==> 2 * us.value <= budget - 4528 <= 2 * us.value + 1)
  {
  }

  lemma PllRange(oscillator: nat)
    requires 577 <= oscillator < 0x1_0000
    ensures 0x4000 <= 0x4000_0000 / oscillator <= 1860904
  {
    var pll := 0x4000_0000 / oscillator;
    DivideBack(0x4000_0000, oscillator);
    Widened(pll, 577, oscillator);
    Widened(pll + 1, oscillator, 0x1_0000);
    assert pll * oscillator <= 0x4000_0000 < (pll + 1) * oscillator by { NextMultiple(pll, oscillator); }
  }

  lemma Widened(x: nat, a: nat, b: nat)
    requires a <= b
    ensures x * a <= x * b
  {
  }

  lemma NextMultiple(x: nat, d: nat)
    ensures (x + 1) * d == x * d + d
  {
  }

  lemma ClocksRange(units: nat, clocks: nat)
    requires 0x90000 <= units <= 66992544 && 12 <= clocks <= 32
    ensures units * clocks % WORD / 64 > 0
  {
    assert 0x90000 * 12 <= units * clocks <= 66992544 * 32;
  }
}
