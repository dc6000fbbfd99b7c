/** The difficulty a branch sets, told by the timestamps of its blocks (`next_bits_for_blocks` in
    src/blockchain/chain.rs). */
module Difficulty {
  import opened Basics
  import opened Transactions
  import opened Targets
  import opened Timestamps
  import opened Retargeting
  import opened Blocks

  /** Timestamps of heights |chain| - 2021 to |chain| - 2011: the eleven blocks around the start of the period. */
  function StartTimes(chain: seq<Block>): seq<nat>
    requires |chain| >= 2016
  {
    TimestampsOf(chain)[Max(0, |chain| - 2021)..|chain| - 2010]
  }

  /** Timestamps of the last eleven blocks. */
  function EndTimes(chain: seq<Block>): (r: seq<nat>)
    requires |chain| >= 2016
    ensures |r| == 11
  {
    TimestampsOf(chain)[|chain| - 11..]
  }

  function TipBits(chain: seq<Block>): U32
    requires chain != []
  {
    chain[|chain| - 1].header.bits
  }

  /** The time the code takes a period to have lasted. */
  function Elapsed(chain: seq<Block>): nat
    requires |chain| >= 2016
  {
    SatSub(Median(EndTimes(chain)), Median(StartTimes(chain)))
  }

  lemma BitsFromElapsed(chain: seq<Block>)
    requires Numbered(chain) && |chain| % 2016 == 0
    ensures |chain| >= 2016 && NextBits(chain) == Retarget(TipBits(chain), Elapsed(chain))
  {
  }

  /** Most of the values are at most `v`. */
  predicate MostlyBy(ts: seq<nat>, v: nat) { 2 * Below(ts, v + 1) > |ts| }

  /** Most of the values are at least `v`. */
  predicate MostlyFrom(ts: seq<nat>, v: nat) { 2 * Below(ts, v) < |ts| }

  lemma MedianBy(ts: seq<nat>, v: nat)
    requires ts != []
    ensures MostlyBy(ts, v) ==> Median(ts) <= v
    ensures MostlyFrom(ts, v) ==> Median(ts) >= v
  {
    MedianRank(ts, v + 1);
    MedianRank(ts, v);
  }

  /** A period of exactly the expected length keeps the target. */
  lemma ExpectedKeeps(bits: U32)
    requires Mantissa(bits) != 0 && Exponent(bits) <= 0x1d
    ensures Weight(Retarget(bits, EXPECTED_TIME)) == Weight(bits)
  {
    var m, e := Mantissa(bits), Exponent(bits);
    ExactScale(m);
    if e > 0 {
      UncappedWeight(bits, EXPECTED_TIME);
      PowStep(e - 1);
      Associate(m, 256, Pow256(e - 1));
    } else {
      Outcome(bits, EXPECTED_TIME);
    }
  }

  lemma LongerEases(bits: U32, actual: nat)
    requires Mantissa(bits) != 0 && actual >= EXPECTED_TIME
    requires CapIsFar(bits)
    ensures Weight(Retarget(bits, actual)) >= Weight(bits)
  {
    ExpectedKeeps(bits);
    MonotoneExactly(bits);
    assert Weight(Retarget(bits, EXPECTED_TIME)) <= Weight(Retarget(bits, actual));
  }

  lemma CappedArith(f: nat, m: nat, p: nat, q: nat)
    requires f <= 256 * m && 256 * p <= q
    ensures f * p <= m * q
  {
    Products(f, 256 * m, p, p);
    Associate(m, 256, p);
    Products(m, m, 256 * p, q);
  }

  lemma ShorterHardens(bits: U32, actual: nat)
    requires Mantissa(bits) != 0 && actual <= EXPECTED_TIME
    ensures Weight(Retarget(bits, actual)) <= Weight(bits)
  {
    var m, e := Mantissa(bits), Exponent(bits);
    var s := Scaled(m, actual);
    ScaledMonotone(m, actual, EXPECTED_TIME);
    ExactScale(m);
    if e <= 0x1d {
      ExpectedKeeps(bits);
      MonotoneBelowCap(bits, actual, EXPECTED_TIME);
    } else {
      AboveCap(bits, actual);
      PowMonotone(0x1d, e - 1);
      CappedArith(Flat(s), m, Pow256(0x1d), Pow256(e));
    }
  }

  /** Most blocks around the start of the period are dated at most `t`, most of the last eleven at least 2016 block times
      of 194 seconds later. */
  ghost predicate SlowSince(chain: seq<Block>, t: nat) {
    |chain| >= 2016 && MostlyBy(StartTimes(chain), t) && MostlyFrom(EndTimes(chain), t + 194 * 2016)
  }

  /** The reverse: at least `t` at the start, at most 2016 block times later at the end. */
  ghost predicate FastSince(chain: seq<Block>, t: nat) {
    |chain| >= 2016 && MostlyFrom(StartTimes(chain), t) && MostlyBy(EndTimes(chain), t + 194 * 2016)
  }

  /** Bits whose target can grow fourfold without meeting the cap on the exponent. */
  predicate CapIsFar(bits: U32) { Exponent(bits) <= 0x1c || (Exponent(bits) == 0x1d && 4 * Mantissa(bits) <= 0xff_ffff) }

  /** A slow period never makes the next target harder. A minority of forged timestamps at either end changes nothing. */
  lemma SlowPeriodNeverHardens(chain: seq<Block>, t: nat)
    requires Numbered(chain) && |chain| % 2016 == 0 && SlowSince(chain, t)
    requires Mantissa(TipBits(chain)) != 0 && CapIsFar(TipBits(chain))
    ensures Weight(NextBits(chain)) >= Weight(TipBits(chain))
  {
    MedianBy(StartTimes(chain), t);
    MedianBy(EndTimes(chain), t + 194 * 2016);
    BitsFromElapsed(chain);
    LongerEases(TipBits(chain), Elapsed(chain));
  }

  /** A fast period never makes the next target easier, whatever the bits. */
  lemma FastPeriodNeverEases(chain: seq<Block>, t: nat)
    requires Numbered(chain) && |chain| % 2016 == 0 && FastSince(chain, t) && Mantissa(TipBits(chain)) != 0
    ensures Weight(NextBits(chain)) <= Weight(TipBits(chain))
  {
    MedianBy(StartTimes(chain), t);
    MedianBy(EndTimes(chain), t + 194 * 2016);
    BitsFromElapsed(chain);
    ShorterHardens(TipBits(chain), Elapsed(chain));
  }

  /** The bits of block `i` against those of its parent, for every reading `t` of the clock at the start of the period. */
  ghost predicate BitsFollowClock(chain: seq<Block>, i: nat)
    requires 1 <= i < |chain|
  {
    var parent, bits := chain[i - 1].header.bits, chain[i].header.bits;
    && (i % 2016 != 0 ==> bits == parent)
    && Weight(bits) <= 4 * Weight(parent)
    && (i % 2016 == 0 && Mantissa(parent) != 0 ==>
          && (forall t: nat | SlowSince(chain[..i], t) && CapIsFar(parent) :: Weight(bits) >= Weight(parent))
          && (forall t: nat | FastSince(chain[..i], t) :: Weight(bits) <= Weight(parent)))
  }

  lemma BitsStep(chain: seq<Block>)
    requires Numbered(chain)
    ensures |chain| % 2016 != 0 ==> NextBits(chain) == TipBits(chain)
    ensures Weight(NextBits(chain)) <= 4 * Weight(TipBits(chain))
  {
    if |chain| % 2016 == 0 {
      BitsFromElapsed(chain);
      AtMostFourfold(TipBits(chain), Elapsed(chain));
    }
  }

  /** Along every lawful branch a block takes its parent's bits except at multiples of 2016, and there the target follows
      the clock. */
  lemma BitsAlongBranch(c: Crypto, magic: U32, chain: seq<Block>, i: nat)
    requires LawfulChain(c, magic, chain) && 1 <= i < |chain|
    ensures BitsFollowClock(chain, i)
  {
    LawfulAt(c, magic, chain, i);
    LawfulHeight(c, magic, chain[..i], chain[i]);
    var before := chain[..i];
    BitsStep(before);
    if i % 2016 == 0 && Mantissa(TipBits(before)) != 0 {
      forall t: nat | SlowSince(before, t) && CapIsFar(TipBits(before)) ensures Weight(NextBits(before)) >= Weight(TipBits(before)) {
        SlowPeriodNeverHardens(before, t);
      }
      forall t: nat | FastSince(before, t) ensures Weight(NextBits(before)) <= Weight(TipBits(before)) {
        FastPeriodNeverEases(before, t);
      }
    }
  }
}
