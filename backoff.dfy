/** The yield counter of every retry loop: it starts at 1 and doubles after each
    failed round until it reaches the loop's cap. */
module Backoff {

  /** The cap of the spin locks, the reentrant locks and the current lease lock. */
  const MaxBlock := 64
  /** The cap of the older lease lock. */
  const LegacyMaxBlock := 256

  /** What the environment does during the yields of one failed round of a
      loop that also reads the clock: whether the resource it waits for was
      freed, and the time (in nanoseconds) read after the yields. */
  datatype Round = Round(freed: bool, now: int)

  /** The clock readings of `rounds`, in order. */
  function Clock(rounds: seq<Round>): (times: seq<int>)
    ensures |times| == |rounds|
    ensures forall k :: 0 <= k < |rounds| ==> times[k] == rounds[k].now
  {
    seq(|rounds|, k requires 0 <= k < |rounds| => rounds[k].now)
  }

  function Pow2(k: nat): (r: nat)
    ensures r >= 1
  {
    if k == 0 then 1 else 2 * Pow2(k - 1)
  }

  /** The value of `block` after `rounds` failed rounds of a loop capped at
      `maxBlock`: `if block < maxBlock { block <<= 1 }` once per round. */
  function BlockAfter(rounds: nat, maxBlock: nat): (r: nat)
    ensures r >= 1
    ensures maxBlock >= 1 ==> r < 2 * maxBlock
  {
    if rounds == 0 then 1
    else
      var b := BlockAfter(rounds - 1, maxBlock);
      if b < maxBlock then b * 2 else b
  }

  lemma {:induction false} Pow2Increasing(a: nat, b: nat)
    requires a < b
    ensures Pow2(a) < Pow2(b)
  {
    if a + 1 < b {
      Pow2Increasing(a, b - 1);
    }
  }

  /** With a power-of-two cap 2^m the counter is 2^rounds up to m rounds and
      2^m for ever after. */
  lemma {:induction false} BlockAfterClosedForm(rounds: nat, m: nat)
    ensures BlockAfter(rounds, Pow2(m)) == if rounds <= m then Pow2(rounds) else Pow2(m)
  {
    if rounds > 0 {
      BlockAfterClosedForm(rounds - 1, m);
      if rounds <= m {
        Pow2Increasing(rounds - 1, m);
      }
    }
  }

  /** Every value of the counter is a power of two between 1 and the cap, and the
      counter stays at the cap once it has reached it. */
  lemma {:induction false} BlockBounded(rounds: nat, m: nat)
    ensures 1 <= BlockAfter(rounds, Pow2(m)) <= Pow2(m)
    ensures exists k :: 0 <= k <= m && BlockAfter(rounds, Pow2(m)) == Pow2(k)
    ensures rounds >= m ==> BlockAfter(rounds, Pow2(m)) == Pow2(m)
    ensures BlockAfter(rounds, Pow2(m)) == Pow2(m) ==> BlockAfter(rounds + 1, Pow2(m)) == Pow2(m)
  {
    BlockAfterClosedForm(rounds, m);
    BlockAfterClosedForm(rounds + 1, m);
    if rounds < m {
      Pow2Increasing(rounds, m);
    }
  }

  lemma CapsArePowersOfTwo()
    ensures MaxBlock == Pow2(6)
    ensures LegacyMaxBlock == Pow2(8)
  {
  }

  /** The counter of a 64-capped loop: 1, 2, 4, ..., 64, 64, ... */
  lemma SpinBlockBounds(rounds: nat)
    ensures 1 <= BlockAfter(rounds, MaxBlock) <= MaxBlock
    ensures rounds >= 6 ==> BlockAfter(rounds, MaxBlock) == MaxBlock
  {
    CapsArePowersOfTwo();
    BlockBounded(rounds, 6);
  }

  /** The counter of the 256-capped loop of the older lease lock. */
  lemma LegacyBlockBounds(rounds: nat)
    ensures 1 <= BlockAfter(rounds, LegacyMaxBlock) <= LegacyMaxBlock
    ensures rounds >= 8 ==> BlockAfter(rounds, LegacyMaxBlock) == LegacyMaxBlock
    ensures rounds == 7 ==> BlockAfter(rounds, LegacyMaxBlock) == 128
  {
    CapsArePowersOfTwo();
    BlockBounded(rounds, 8);
    BlockAfterClosedForm(rounds, 8);
  }
}
