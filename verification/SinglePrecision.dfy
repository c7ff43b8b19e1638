// lrintf as the encoder calls it: the time, computed in double precision, is passed as a
// single-precision number and then rounded to an integer, each time to the nearest with
// ties to even.

module SinglePrecision {

  function Abs(x: real): (r: real)
    ensures r >= 0.0 && (r == x || r == -x)
  {
    if x < 0.0 then -x else x
  }

  function HalfEven(x: real): (n: int)
    ensures -0.5 <= n as real - x <= 0.5
  {
    var n := x.Floor;
    var rest := x - n as real;
    if rest < 0.5 then n
    else if rest > 0.5 then n + 1
    else if n % 2 == 0 then n else n + 1
  }

  const DIGITS := 16777216.0    // 2^24

  // The nearest single-precision number, which has 24 binary digits: doubling moves its
  // exponent only.  Below 1/2 there are more numbers than this keeps, but all of them
  // round to the integer 0.
  function Single(x: real): real
    decreases Abs(x).Floor
  {
    if Abs(x) < 1.0 then HalfEven(x * DIGITS) as real / DIGITS else 2.0 * Single(x / 2.0)
  }

  function Lrintf(x: real): int {
    HalfEven(Single(x))
  }

  // ---------------------------------------------------------------- how far off it is

  function Pow2(k: nat): (p: real)
    ensures p >= 1.0
  {
    if k == 0 then 1.0 else 2.0 * Pow2(k - 1)
  }

  // Below 2^k the conversion is off by at most 2^(k - 25).
  lemma {:induction false} SingleNear(x: real, k: nat)
    requires Abs(x) < Pow2(k)
    ensures -Pow2(k) <= 2.0 * DIGITS * (Single(x) - x) <= Pow2(k)
    decreases k
  {
    if Abs(x) >= 1.0 {
      SingleNear(x / 2.0, k - 1);
    }
  }

  // From 1/2 on it is off by at most one part in 2^24.
  lemma {:induction false} SingleRelative(x: real)
    requires Abs(x) >= 0.5
    ensures -Abs(x) <= DIGITS * (Single(x) - x) <= Abs(x)
    decreases Abs(x).Floor
  {
    if Abs(x) >= 1.0 {
      SingleRelative(x / 2.0);
    }
  }

  lemma Pow2Add5(k: nat)
    ensures Pow2(k + 5) == 32.0 * Pow2(k)
  {
    assert Pow2(k + 5) == 2.0 * Pow2(k + 4) == 4.0 * Pow2(k + 3);
    assert Pow2(k + 3) == 2.0 * Pow2(k + 2) == 4.0 * Pow2(k + 1);
  }

  lemma Powers()
    ensures Pow2(21) == 2097152.0 && Pow2(25) == 33554432.0
  {
    Pow2Add5(0);
    Pow2Add5(5);
    Pow2Add5(10);
    Pow2Add5(15);
    Pow2Add5(20);
    assert Pow2(21) == 2.0 * Pow2(20);
  }

  // Below 2^21 lrintf is off by at most a half and a sixteenth.
  lemma ErrorBelow21(x: real)
    requires -2097152.0 < x < 2097152.0
    ensures -0.5625 <= Lrintf(x) as real - x <= 0.5625
  {
    Powers();
    SingleNear(x, 21);
  }

  // More than 1.1 never becomes 0.
  lemma Positive(x: real)
    requires x > 1.1
    ensures Lrintf(x) >= 1
  {
    SingleRelative(x);
  }

  lemma PositiveAll()
    ensures forall x :: x > 1.1 ==> Lrintf(x) >= 1
  {
    forall x | x > 1.1
      ensures Lrintf(x) >= 1
    {
      Positive(x);
    }
  }

  // ---------------------------------------------------------------- around 2^21 and 2^25

  lemma Halve5(x: real)
    requires Abs(x) >= 16.0
    ensures Single(x) == 32.0 * Single(x / 32.0)
  {
    assert Single(x) == 2.0 * Single(x / 2.0);
    assert Single(x / 2.0) == 2.0 * Single(x / 4.0);
    assert Single(x / 4.0) == 2.0 * Single(x / 8.0);
    assert Single(x / 8.0) == 2.0 * Single(x / 16.0);
    assert Single(x / 16.0) == 2.0 * Single(x / 32.0);
  }

  lemma Halve20(x: real)
    requires Abs(x) >= 524288.0
    ensures Single(x) == 1048576.0 * Single(x / 1048576.0)
  {
    Halve5(x);
    Halve5(x / 32.0);
    Halve5(x / 1024.0);
    Halve5(x / 32768.0);
    assert x / 32.0 / 32.0 == x / 1024.0 && x / 1024.0 / 32.0 == x / 32768.0 && x / 32768.0 / 32.0 == x / 1048576.0;
  }

  // From 2^21 the numbers are a quarter apart.
  lemma QuarterSteps(x: real)
    requires 2097152.0 <= Abs(x) < 4194304.0
    ensures Single(x) == HalfEven(4.0 * x) as real / 4.0
  {
    Halve20(x);
    FourTimes(x / 1048576.0);
    assert x / 1048576.0 / 4.0 * DIGITS == 4.0 * x;
  }

  lemma FourTimes(x: real)
    requires 2.0 <= Abs(x) < 4.0
    ensures Single(x) == 4.0 * (HalfEven(x / 4.0 * DIGITS) as real / DIGITS)
  {
    assert Single(x) == 2.0 * Single(x / 2.0);
    assert Single(x / 2.0) == 2.0 * Single(x / 4.0);
  }

  lemma SixteenTimes(x: real)
    requires Abs(x) >= 8.0
    ensures Single(x) == 16.0 * Single(x / 16.0)
  {
    assert Single(x) == 2.0 * Single(x / 2.0);
    assert Single(x / 2.0) == 2.0 * Single(x / 4.0);
    assert Single(x / 4.0) == 2.0 * Single(x / 8.0);
    assert Single(x / 8.0) == 2.0 * Single(x / 16.0);
  }

  lemma Halve24(x: real)
    requires Abs(x) >= 8388608.0
    ensures Single(x) == 16777216.0 * Single(x / 16777216.0)
  {
    Halve20(x);
    SixteenTimes(x / 1048576.0);
    assert x / 1048576.0 / 16.0 == x / 16777216.0;
  }

  // From 2^25 they are 4 apart.
  lemma FourSteps(x: real)
    requires 33554432.0 <= Abs(x) < 67108864.0
    ensures Single(x) == HalfEven(x / 4.0) as real * 4.0
  {
    Halve24(x);
    FourTimes(x / 16777216.0);
    assert x / 16777216.0 / 4.0 * DIGITS == x / 4.0;
  }

  // An even number is what everything up to a half from it rounds to.
  lemma Ties(y: real, n: int)
    requires n % 2 == 0 && n as real - 0.5 <= y <= n as real + 0.5
    ensures HalfEven(y) == n
  {
  }

  // Up to 0.62 above 2^21 everything becomes 2^21.
  lemma Above21(x: real)
    requires 2097152.0 <= x <= 2097152.62
    ensures Lrintf(x) == 2097152
  {
    QuarterSteps(x);
    assert 8388608 <= HalfEven(4.0 * x) <= 8388610;
    Ties(Single(x), 2097152);
  }

  lemma Below21(x: real)
    requires -2097152.62 <= x <= -2097152.0
    ensures Lrintf(x) == -2097152
  {
    QuarterSteps(x);
    assert -8388610 <= HalfEven(4.0 * x) <= -8388608;
    Ties(Single(x), -2097152);
  }

  // Less than 2 above 2^25 everything becomes 2^25.
  lemma Above25(x: real)
    requires 33554432.0 <= x < 33554434.0
    ensures Lrintf(x) == 33554432
  {
    FourSteps(x);
    Ties(x / 4.0, 8388608);
  }

  lemma Below25(x: real)
    requires -33554434.0 < x <= -33554432.0
    ensures Lrintf(x) == -33554432
  {
    FourSteps(x);
    Ties(x / 4.0, -8388608);
  }

  // Up to 33554433.6 either way lrintf is at most 1.6 too low.
  lemma LowBy(x: real)
    requires -33554433.6 <= x <= 33554433.6
    ensures Lrintf(x) as real >= x - 1.6
  {
    if x >= 33554432.0 {
      Above25(x);
    } else if x <= -33554432.0 {
      Below25(x);
    } else {
      Powers();
      SingleNear(x, 25);
    }
  }

  // Up to 2097152.6 either way lrintf is at most 0.6 off.
  lemma ErrorTo21(x: real)
    requires -2097152.6 <= x <= 2097152.6
    ensures -0.6 <= Lrintf(x) as real - x <= 0.6
  {
    if x >= 2097152.0 {
      Above21(x);
    } else if x <= -2097152.0 {
      Below21(x);
    } else {
      ErrorBelow21(x);
    }
  }

  // Just above 2.5 it is more than a half off.
  lemma AboveHalf()
    ensures Lrintf(2.5) == 2 && Lrintf(2.50000005) == 2
  {
    FourTimes(2.5);
    FourTimes(2.50000005);
    assert HalfEven(2.5 / 4.0 * DIGITS) == 10485760;
    assert HalfEven(2.50000005 / 4.0 * DIGITS) == 10485760;
  }
}
