/** src/services/keystore.ts: rounding the benchmarked scrypt work factor to a power of two. */
module WorkFactors {
  import opened Prelude

  const N_MIN := 65536
  /** The largest power of two that `1 << k` gives. */
  const N_LARGEST := 0x4000_0000

  /** The extrapolated work factor; dividing by a benchmark time of 0 gives Infinity or NaN. */
  datatype Extrapolated = Finite(value: int) | NotFinite

  ghost predicate IsPowerOfTwo(n: int) { exists k: nat :: n == Pow2(k) }

  function BitLength(x: nat): nat {
    if x == 0 then 0 else BitLength(x / 2) + 1
  }

  /** `Math.clz32` on a number that fits 32 bits. */
  function Clz32(x: nat): int { 32 - BitLength(x) }

  /** `1 << k` on 32-bit integers: the shift counts modulo 32, and bit 31 is the sign. */
  function ShiftOne(k: int): int {
    if k % 32 == 31 then -0x8000_0000 else Pow2(k % 32)
  }

  /** Bitwise operators see non-finite numbers as 0, others modulo 2^32. */
  function ToUint32(x: Extrapolated): nat {
    match x case Finite(v) => v % 0x1_0000_0000 case NotFinite => 0
  }

  function WorkFactor(x: Extrapolated): int {
    Max(N_MIN, ShiftOne(31 - Clz32(ToUint32(x))))
  }

  lemma {:induction false} BitLengthIsLog(x: nat)
    requires 0 < x
    ensures BitLength(x) > 0 && Pow2(BitLength(x) - 1) <= x < Pow2(BitLength(x))
  {
    if x > 1 {
      BitLengthIsLog(x / 2);
    }
  }

  lemma Clz32IsLog(x: nat)
    requires 0 < x < 0x1_0000_0000
    ensures 0 <= Clz32(x) <= 31 && Pow2(31 - Clz32(x)) <= x < 2 * Pow2(31 - Clz32(x))
  {
    BitLengthIsLog(x);
    Pow2Of31();
    assert Pow2(32) == 2 * Pow2(31);
    if BitLength(x) > 32 {
      Pow2Grows(32, BitLength(x) - 1);
    }
  }

  lemma Pow2Of31()
    ensures Pow2(16) == N_MIN && Pow2(30) == N_LARGEST && Pow2(31) == 0x8000_0000
  {
    assert Pow2(8) == 256;
    assert Pow2(16) == 65536;
    assert Pow2(24) == 0x100_0000;
    assert Pow2(30) == N_LARGEST;
    assert Pow2(31) == 0x8000_0000;
  }

  lemma {:induction false} Pow2Grows(j: nat, k: nat)
    requires j <= k
    ensures Pow2(j) <= Pow2(k)
    decreases k - j
  {
    if j < k {
      Pow2Grows(j, k - 1);
    }
  }

  /**
    * The factor is the extrapolated one rounded down to a power of two exactly when that lies between
    * the minimum and 2^31: a smaller one is raised to the minimum, a larger one wraps around.
    */
  lemma WorkFactorRoundsDown(x: int)
    ensures var n := WorkFactor(Finite(x)); n <= x < 2 * n <==> N_MIN <= x < 0x8000_0000
  {
    ShiftRoundsDown(ToUint32(Finite(x)));
    if N_MIN <= x < 0x8000_0000 {
      assert ToUint32(Finite(x)) == x;
    }
  }

  lemma ShiftIsPower(k: nat)
    requires k <= 31
    ensures ShiftOne(k) == if k == 31 then -0x8000_0000 else Pow2(k)
    ensures ShiftOne(-1) == -0x8000_0000
  {
    hide Pow2;
    assert k % 32 == k && -1 % 32 == 31;
  }

  lemma SmallPower(k: nat)
    requires k <= 30
    ensures Pow2(k) <= N_LARGEST && IsPowerOfTwo(Pow2(k))
  {
    hide Pow2;
    Pow2Of31();
    Pow2Grows(k, 30);
  }

  /** Zero and numbers from 2^31 on shift into the sign bit. */
  lemma ShiftRoundsDown(y: nat)
    requires y < 0x1_0000_0000
    ensures var n := ShiftOne(31 - Clz32(y));
            if 0 < y < 0x8000_0000 then n <= y < 2 * n && n <= N_LARGEST && IsPowerOfTwo(n) else n == -0x8000_0000
  {
    hide Pow2, ShiftOne;
    if y == 0 {
      assert Clz32(y) == 32;
      ShiftIsPower(0);
    } else {
      hide BitLength, Clz32;
      Clz32IsLog(y);
      Pow2Of31();
      var k := 31 - Clz32(y);
      ShiftIsPower(k);
      if k <= 30 {
        SmallPower(k);
      }
    }
  }

  /** Whatever the benchmark said; so retrieval's lower bound never refuses the factor. */
  lemma WorkFactorIsSound(x: Extrapolated)
    ensures N_MIN <= WorkFactor(x) <= N_LARGEST && IsPowerOfTwo(WorkFactor(x))
  {
    hide Pow2, ShiftOne, Clz32;
    Pow2Of31();
    ShiftRoundsDown(ToUint32(x));
    assert IsPowerOfTwo(Pow2(16));
  }

  /** Seen as 32 bits, everything below the minimum or from 2^31 on gives the minimum itself. */
  lemma WorkFactorOtherwise(x: Extrapolated)
    requires x.NotFinite? || !(N_MIN <= x.value % 0x1_0000_0000 < 0x8000_0000)
    ensures WorkFactor(x) == 65536
  {
    hide Clz32, ShiftOne;
    ShiftRoundsDown(ToUint32(x));
  }
}
