/** The 64-bit linear congruential generator (Knuth's MMIX constants) with which two of the
    effects draw their pseudo-random numbers, `wrapping_mul` and `wrapping_add` written out
    as arithmetic modulo 2^64. */
module Lcg {
  import Grids

  const Modulus: nat := 0x1_0000_0000_0000_0000
  const Multiplier: nat := 6364136223846793005
  const Increment: nat := 1442695040888963407

  /** A `u64`. */
  type U64 = x: int | 0 <= x < 0x1_0000_0000_0000_0000

  /** `state.wrapping_mul(6364136223846793005).wrapping_add(1442695040888963407)`. */
  function Next(s: U64): U64 {
    (s * Multiplier + Increment) % Modulus
  }

  /** Reducing modulo `m` before an addition does not change the sum's remainder. */
  lemma ModOfSum(a: nat, c: nat, m: nat)
    requires m > 0
    ensures (a % m + c) % m == (a + c) % m
  {
    var t := a % m + c;
    assert a + c == (a / m) * m + t;
    assert t == (t / m) * m + t % m;
    assert a + c == (a / m + t / m) * m + t % m;
    Grids.DivModUnique(a + c, m, a / m + t / m, t % m);
  }

  /** The source's two wrapping operations, the multiplication wrapped to 64 bits before the
      increment is added and wrapped again, give the single remainder `Next` takes. */
  lemma NextIsTwoWrappingSteps(s: U64)
    ensures Next(s) == ((s * Multiplier) % Modulus + Increment) % Modulus
  {
    ModOfSum(s * Multiplier, Increment, Modulus);
  }

  /** The `n` states drawn one after another from seed `s` (the seed itself excluded): the
      first is the seed's successor and each next one is the successor of the one before. */
  function Stream(s: U64, n: nat): (r: seq<U64>)
    ensures |r| == n
    ensures n > 0 ==> r[0] == Next(s)
    ensures forall i :: 0 <= i < n - 1 ==> r[i + 1] == Next(r[i])
    decreases n
  {
    if n == 0 then [] else [Next(s)] + Stream(Next(s), n - 1)
  }

  /** Drawing `m + n` states is drawing `m` and then `n` more from where the first run ended. */
  lemma {:induction false} StreamSplits(s: U64, m: nat, n: nat)
    ensures m > 0 ==> Stream(s, m + n) == Stream(s, m) + Stream(Stream(s, m)[m - 1], n)
    ensures m == 0 ==> Stream(s, m + n) == Stream(s, n)
    decreases m
  {
    if m > 1 {
      StreamSplits(Next(s), m - 1, n);
      assert Stream(s, m + n) == [Next(s)] + Stream(Next(s), m - 1 + n);
      assert Stream(s, m) == [Next(s)] + Stream(Next(s), m - 1);
      assert Stream(s, m)[m - 1] == Stream(Next(s), m - 1)[m - 2];
    } else if m == 1 {
      assert Stream(s, 1 + n) == [Next(s)] + Stream(Next(s), n);
      assert Stream(s, 1) == [Next(s)] + Stream(Next(s), 0);
    }
  }
}
