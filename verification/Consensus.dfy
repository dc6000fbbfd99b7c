/** Medians of timestamps and the timestamp rule (src/blockchain/consensus.rs, and the past-median
    window of src/blockchain/chain.rs). */
module Timestamps {
  import opened Basics

  const MEDIAN_WINDOW: nat := 11
  const MAX_DRIFT: nat := 7200

  function Insert(s: seq<nat>, x: nat): (r: seq<nat>)
    ensures |r| == |s| + 1
  {
    if s == [] then [x] else if x <= s[0] then [x] + s else [s[0]] + Insert(s[1..], x)
  }

  /** The ascending order `sort_unstable` leaves. */
  function Sort(s: seq<nat>): (r: seq<nat>)
    ensures |r| == |s|
  {
    if s == [] then [] else Insert(Sort(s[1..]), s[0])
  }

  function Median(ts: seq<nat>): nat {
    if ts == [] then 0 else Sort(ts)[|ts| / 2]
  }

  /** The latest timestamps first, at most eleven of them. */
  function Recent(ts: seq<nat>): (r: seq<nat>)
    ensures |r| == Min(MEDIAN_WINDOW, |ts|)
  {
    seq(Min(MEDIAN_WINDOW, |ts|), i requires 0 <= i < Min(MEDIAN_WINDOW, |ts|) => ts[|ts| - 1 - i])
  }

  function PastMedian(ts: seq<nat>): nat { Median(Recent(ts)) }

  predicate ValidTimestamp(ts: nat, pastMedian: nat, now: nat) {
    pastMedian < ts <= now + MAX_DRIFT
  }

  // ---------- rank of the median ----------

  predicate Sorted(s: seq<nat>) {
    forall i, j | 0 <= i < j < |s| :: s[i] <= s[j]
  }

  function Below(s: seq<nat>, v: nat): (n: nat)
    ensures n <= |s|
  {
    if s == [] then 0 else (if s[0] < v then 1 else 0) + Below(s[1..], v)
  }

  lemma {:induction false} InsertFacts(s: seq<nat>, x: nat, v: nat)
    ensures Below(Insert(s, x), v) == Below(s, v) + if x < v then 1 else 0
    ensures forall y | y in Insert(s, x) :: y == x || y in s
    ensures Sorted(s) ==> Sorted(Insert(s, x))
  {
    if s == [] {
      assert Insert(s, x)[1..] == [];
    } else if x <= s[0] {
      assert Insert(s, x)[1..] == s;
    } else {
      InsertFacts(s[1..], x, v);
      var r := Insert(s[1..], x);
      assert Insert(s, x)[1..] == r;
      if Sorted(s) {
        forall i | 0 <= i < |r| ensures s[0] <= r[i] {
          assert r[i] in r;
        }
      }
    }
  }

  lemma {:induction false} SortFacts(s: seq<nat>, v: nat)
    ensures Sorted(Sort(s)) && Below(Sort(s), v) == Below(s, v)
  {
    if s != [] {
      SortFacts(s[1..], v);
      InsertFacts(Sort(s[1..]), s[0], v);
    }
  }

  lemma {:induction false} NoneBelow(s: seq<nat>, v: nat)
    requires forall i | 0 <= i < |s| :: s[i] >= v
    ensures Below(s, v) == 0
  {
    if s != [] { NoneBelow(s[1..], v); }
  }

  lemma {:induction false} RankInSorted(s: seq<nat>, k: nat, v: nat)
    requires Sorted(s) && k < |s|
    ensures s[k] >= v <==> Below(s, v) <= k
  {
    if s[0] >= v {
      NoneBelow(s, v);
    } else if k > 0 {
      RankInSorted(s[1..], k - 1, v);
    }
  }

  /** The median is at least `v` exactly when at most half of the values (rounded down) lie below `v`. */
  lemma MedianRank(ts: seq<nat>, v: nat)
    requires ts != []
    ensures Median(ts) >= v <==> Below(ts, v) <= |ts| / 2
  {
    SortFacts(ts, v);
    RankInSorted(Sort(ts), |ts| / 2, v);
  }

  // ---------- the past median along a chain ----------

  lemma {:induction false} BelowPrefix(s: seq<nat>, k: nat, v: nat)
    requires k <= |s|
    ensures Below(s[..k], v) <= Below(s, v)
  {
    if k > 0 {
      BelowPrefix(s[1..], k - 1, v);
      assert s[..k][1..] == s[1..][..k - 1];
    }
  }

  /** One accepted block, in a window still filling or already full, cannot lower the past median. */
  lemma PastMedianStep(ts: seq<nat>, t: nat)
    requires ts != [] && t > PastMedian(ts)
    ensures PastMedian(ts + [t]) >= PastMedian(ts)
  {
    var m, r, s := PastMedian(ts), Recent(ts), Recent(ts + [t]);
    var k := |s| - 1;
    assert s[1..] == r[..k] by {
      assert forall i | 0 <= i < k :: s[1..][i] == r[i];
    }
    MedianRank(r, m);
    BelowPrefix(r, k, m);
    MedianRank(s, m);
  }

  /** Every timestamp after the first exceeds the past median of what precedes it. */
  predicate Advancing(ts: seq<nat>) {
    forall k | 1 <= k < |ts| :: ts[k] > PastMedian(ts[..k])
  }

  /** Along any accepted branch the past median never decreases. */
  lemma {:induction false} PastMedianMonotone(ts: seq<nat>, i: nat, j: nat)
    requires Advancing(ts) && 1 <= i <= j <= |ts|
    ensures PastMedian(ts[..i]) <= PastMedian(ts[..j])
    decreases j
  {
    if i < j {
      PastMedianMonotone(ts, i, j - 1);
      PastMedianStep(ts[..j - 1], ts[j - 1]);
      assert ts[..j] == ts[..j - 1] + [ts[j - 1]];
    }
  }

  // ---------- robustness ----------

  function Altered(ts: seq<nat>, us: seq<nat>): nat
    requires |ts| == |us|
  {
    if ts == [] then 0 else (if ts[0] != us[0] then 1 else 0) + Altered(ts[1..], us[1..])
  }

  lemma {:induction false} BelowUnaltered(ts: seq<nat>, us: seq<nat>, lo: nat, hi: nat)
    requires |ts| == |us|
    requires forall i | 0 <= i < |ts| && ts[i] == us[i] :: lo <= ts[i] <= hi
    ensures Below(us, lo) <= Altered(ts, us)
    ensures Below(us, hi + 1) >= |us| - Altered(ts, us)
  {
    if ts != [] {
      assert forall i | 0 <= i < |ts| - 1 :: ts[1..][i] == ts[i + 1] && us[1..][i] == us[i + 1];
      BelowUnaltered(ts[1..], us[1..], lo, hi);
    }
  }

  /** Rewriting fewer than half of a window leaves the median within the range of the untouched values. */
  lemma MedianRobust(ts: seq<nat>, us: seq<nat>, lo: nat, hi: nat)
    requires |ts| == |us| && 2 * Altered(ts, us) < |us|
    requires forall i | 0 <= i < |ts| && ts[i] == us[i] :: lo <= ts[i] <= hi
    ensures lo <= Median(us) <= hi
  {
    BelowUnaltered(ts, us, lo, hi);
    MedianAtLeast(us, lo, Altered(ts, us));
    MedianAtMost(us, hi, Altered(ts, us));
  }

  lemma MedianAtLeast(us: seq<nat>, lo: nat, a: nat)
    requires 2 * a < |us| && Below(us, lo) <= a
    ensures lo <= Median(us)
  {
    MedianRank(us, lo);
  }

  lemma MedianAtMost(us: seq<nat>, hi: nat, a: nat)
    requires 2 * a < |us| && Below(us, hi + 1) >= |us| - a
    ensures Median(us) <= hi
  {
    MedianRank(us, hi + 1);
  }
}

/** The difficulty retarget (`adjust_difficulty` in src/blockchain/consensus.rs). */
module Retargeting {
  import opened Basics
  import opened Targets
  import opened Timestamps

  const INTERVAL: nat := 2016
  const EXPECTED_TIME: nat := 194 * 2016
  const MAX_MANTISSA: nat := 0xff_ffff
  const MAX_EXPONENT: nat := 0x1d

  function Clamped(actual: nat): (r: nat)
    ensures EXPECTED_TIME / 4 <= r <= EXPECTED_TIME * 4
  {
    Min(Max(actual, EXPECTED_TIME / 4), EXPECTED_TIME * 4)
  }

  function Scaled(mantissa: nat, actual: nat): nat { mantissa * Clamped(actual) / EXPECTED_TIME }

  function Retarget(bits: U32, actual: nat): U32 {
    var exp, mantissa := Exponent(bits), Mantissa(bits);
    if mantissa == 0 then bits
    else
      var s := Scaled(mantissa, actual);
      var (e, m) :=
        if s > MAX_MANTISSA then (exp + 1, s / 256)
        else if s < 0x100 && exp > 1 then (exp - 1, s * 256)
        else (exp, s);
      Compact(Min(e, MAX_EXPONENT), Min(Max(m, 1), MAX_MANTISSA))
  }

  function AdjustDifficulty(bits: U32, start: seq<nat>, end: seq<nat>): U32 {
    Retarget(bits, SatSub(Median(end), Median(start)))
  }

  /** Bits read as mantissa * 256^exp. */
  function Weight(bits: U32): nat { Mantissa(bits) * Pow256(Exponent(bits)) }

  // ---------- the scaled mantissa ----------

  lemma ProductBounds(m: nat, c: nat)
    requires 97776 <= c <= 1564416
    ensures 97776 * m <= m * c <= 1564416 * m
  {
    MulMonotone(97776, c, m);
    MulMonotone(c, 1564416, m);
  }

  lemma ScaledBounds(m: nat, actual: nat)
    ensures Scaled(m, actual) <= 4 * m
    ensures m <= 4 * Scaled(m, actual) + 3
  {
    var c := Clamped(actual);
    ProductBounds(m, c);
    Floor(m * c, 391104);
  }

  lemma ScaledMonotone(m: nat, a: nat, b: nat)
    requires a <= b
    ensures Scaled(m, a) <= Scaled(m, b)
  {
    MulMonotone(Clamped(a), Clamped(b), m);
    FloorMonotone(m * Clamped(a), m * Clamped(b), 391104);
  }

  /** The result in units of 256^(exp - 1), before the exponent cap. */
  function Renormalised(s: nat, exp: nat): nat {
    if s > MAX_MANTISSA then s / 256 * 0x1_0000
    else if s < 0x100 && exp > 1 then Max(s * 256, 1)
    else Max(s, 1) * 256
  }

  lemma RenormalisedMonotone(s: nat, t: nat, exp: nat)
    requires s <= t
    ensures Renormalised(s, exp) <= Renormalised(t, exp)
  {
  }

  lemma PowStep(e: nat)
    ensures Pow256(e + 1) == 256 * Pow256(e) && Pow256(e + 2) == 0x1_0000 * Pow256(e)
  {
  }

  lemma Associate(a: nat, b: nat, p: nat)
    ensures a * (b * p) == (a * b) * p
  {
  }

  /** The three outcomes of a retarget. */
  lemma Outcome(bits: U32, actual: nat)
    requires Mantissa(bits) != 0
    ensures var e, s, r := Exponent(bits), Scaled(Mantissa(bits), actual), Retarget(bits, actual);
            if s > MAX_MANTISSA then Exponent(r) == Min(e + 1, MAX_EXPONENT) && Mantissa(r) == s / 256
            else if s < 0x100 && e > 1 then Exponent(r) == Min(e - 1, MAX_EXPONENT) && Mantissa(r) == Max(s * 256, 1)
            else Exponent(r) == Min(e, MAX_EXPONENT) && Mantissa(r) == Max(s, 1)
  {
    ScaledBounds(Mantissa(bits), actual);
  }

  /** When the exponent cap does not bite: the guard a caller can evaluate before retargeting. */
  predicate CapIdle(bits: U32, actual: nat) {
    var e, s := Exponent(bits), Scaled(Mantissa(bits), actual);
    e <= 0x1c || (e == 0x1d && s <= MAX_MANTISSA) || (e == 0x1e && s < 0x100)
  }

  /** Where the cap on the exponent does not bite, the new weight is the renormalised scaled mantissa. */
  lemma UncappedWeight(bits: U32, actual: nat)
    requires Mantissa(bits) != 0 && 1 <= Exponent(bits) && CapIdle(bits, actual)
    ensures Weight(Retarget(bits, actual)) ==
            Renormalised(Scaled(Mantissa(bits), actual), Exponent(bits)) * Pow256(Exponent(bits) - 1)
  {
    var e, s := Exponent(bits), Scaled(Mantissa(bits), actual);
    Outcome(bits, actual);
    PowStep(e - 1);
    var p := Pow256(e - 1);
    if s > MAX_MANTISSA {
      Associate(s / 256, 0x1_0000, p);
    } else if !(s < 0x100 && e > 1) {
      Associate(Max(s, 1), 256, p);
    }
  }

  // ---------- bounds and monotonicity ----------

  lemma {:induction false} PowMonotone(a: nat, b: nat)
    requires a <= b
    ensures Pow256(a) <= Pow256(b)
  {
    if a < b { PowMonotone(a, b - 1); }
  }

  lemma Products(a: nat, b: nat, p: nat, q: nat)
    requires a <= b && p <= q
    ensures a * p <= b * q
  {
    assert a * p <= b * p <= b * q;
  }

  /** One retarget never makes a target more than four times easier. */
  lemma AtMostFourfold(bits: U32, actual: nat)
    ensures Weight(Retarget(bits, actual)) <= 4 * Weight(bits)
  {
    var e, m := Exponent(bits), Mantissa(bits);
    if m != 0 {
      var s, r := Scaled(m, actual), Retarget(bits, actual);
      ScaledBounds(m, actual);
      Outcome(bits, actual);
      PowMonotone(Min(e, MAX_EXPONENT), e);
      if s > MAX_MANTISSA {
        PowMonotone(Min(e + 1, MAX_EXPONENT), e + 1);
        Products(Mantissa(r), s / 256, Pow256(Exponent(r)), Pow256(e + 1));
        Associate(s / 256, 256, Pow256(e));
        Products(s / 256 * 256, 4 * m, Pow256(e), Pow256(e));
      } else if s < 0x100 && e > 1 {
        PowMonotone(Min(e - 1, MAX_EXPONENT), e - 1);
        Products(Mantissa(r), 4 * m * 256, Pow256(Exponent(r)), Pow256(e - 1));
        Associate(4 * m, 256, Pow256(e - 1));
      } else {
        Products(Mantissa(r), 4 * m, Pow256(Exponent(r)), Pow256(e));
      }
      Associate(4, m, Pow256(e));
    }
  }

  lemma RenormalisedAtLeast(m: nat, s: nat, exp: nat)
    requires m < 0x100_0000 && m <= 4 * s + 3
    ensures 4 * Renormalised(s, exp) + 768 >= 256 * m
  {
  }

  lemma LowerBoundArith(m: nat, r: nat, p: nat)
    requires 4 * r + 768 >= 256 * m
    ensures 4 * (r * p) + 3 * (256 * p) >= m * (256 * p)
  {
    Products(256 * m, 4 * r + 768, p, p);
  }

  /** The result at exponent zero. */
  function Trimmed(s: nat): nat { if s > MAX_MANTISSA then s / 256 * 256 else Max(s, 1) }

  lemma TrimmedMonotone(s: nat, t: nat)
    requires s <= t
    ensures Trimmed(s) <= Trimmed(t)
  {
  }

  lemma SmallestExponent(bits: U32, actual: nat)
    requires Mantissa(bits) != 0 && Exponent(bits) == 0
    ensures var s := Scaled(Mantissa(bits), actual);
            Weight(Retarget(bits, actual)) == Trimmed(s)
    ensures Weight(bits) == Mantissa(bits) && Pow256(0) == 1
  {
    Outcome(bits, actual);
    PowStep(0);
  }

  lemma LowerBoundUncapped(bits: U32, actual: nat)
    requires Mantissa(bits) != 0 && CapIdle(bits, actual)
    ensures 4 * Weight(Retarget(bits, actual)) + 3 * Pow256(Exponent(bits)) >= Weight(bits)
  {
    var e, m := Exponent(bits), Mantissa(bits);
    var s := Scaled(m, actual);
    ScaledBounds(m, actual);
    if e == 0 {
      SmallestExponent(bits, actual);
    } else {
      UncappedWeight(bits, actual);
      PowStep(e - 1);
      RenormalisedAtLeast(m, s, e);
      LowerBoundArith(m, Renormalised(s, e), Pow256(e - 1));
    }
  }

  lemma Gap(x: nat, y: nat, p: nat)
    requires x < y && p >= 1
    ensures x * p < y * p
  {
    Products(x + 1, y, p, p);
  }

  lemma CappedResult(bits: U32, actual: nat)
    requires Mantissa(bits) > 3 && !CapIdle(bits, actual)
    ensures var r, m, e := Retarget(bits, actual), Mantissa(bits), Exponent(bits);
            && Exponent(r) == 0x1d
            && (e == 0x1d ==> 4 * Mantissa(r) + 3 < m)
            && (e == 0x1e ==> 4 * Mantissa(r) + 768 < 256 * m)
            && (e > 0x1e ==> 4 * Mantissa(r) + 3 * 0x1_0000 < 0x1_0000 * m)
  {
    ScaledBounds(Mantissa(bits), actual);
  }

  lemma FailsArith(x: nat, k: nat, m: nat, p: nat, q: nat)
    requires m > 3 && p >= 1 && q >= k * p && 4 * x + 3 * k < k * m
    ensures 4 * (x * p) + 3 * q < m * q
  {
    Gap(4 * x + 3 * k, k * m, p);
    assert (4 * x + 3 * k) * p == 4 * (x * p) + 3 * (k * p);
    assert k * m * p == m * (k * p);
    Products(m - 3, m - 3, k * p, q);
    assert (m - 3) * q == m * q - 3 * q && (m - 3) * (k * p) == m * (k * p) - 3 * (k * p);
  }

  lemma LowerBoundFails(bits: U32, actual: nat)
    requires Mantissa(bits) > 3 && !CapIdle(bits, actual)
    ensures 4 * Weight(Retarget(bits, actual)) + 3 * Pow256(Exponent(bits)) < Weight(bits)
  {
    var e, m, x := Exponent(bits), Mantissa(bits), Mantissa(Retarget(bits, actual));
    CappedResult(bits, actual);
    PowStep(0x1d);
    var p := Pow256(0x1d);
    if e == 0x1d {
      FailsArith(x, 1, m, p, p);
    } else if e == 0x1e {
      FailsArith(x, 256, m, p, Pow256(0x1e));
    } else {
      PowMonotone(0x1f, e);
      FailsArith(x, 0x1_0000, m, p, Pow256(e));
    }
  }

  /** One retarget never makes a target more than four times harder, up to three mantissa units,
      exactly when the mantissa is tiny or the cap on the exponent does not bite. */
  lemma AtLeastQuarter(bits: U32, actual: nat)
    requires Mantissa(bits) != 0
    ensures 4 * Weight(Retarget(bits, actual)) + 3 * Pow256(Exponent(bits)) >= Weight(bits) <==>
            Mantissa(bits) <= 3 || CapIdle(bits, actual)
  {
    if CapIdle(bits, actual) {
      LowerBoundUncapped(bits, actual);
    } else if Mantissa(bits) > 3 {
      LowerBoundFails(bits, actual);
    } else {
      Products(Mantissa(bits), 3, Pow256(Exponent(bits)), Pow256(Exponent(bits)));
    }
  }

  /** A longer interval never gives a harder target, for exponents the cap cannot reach. */
  lemma MonotoneBelowCap(bits: U32, a: nat, b: nat)
    requires Mantissa(bits) != 0 && a <= b
    requires CapIdle(bits, a) && CapIdle(bits, b)
    ensures Weight(Retarget(bits, a)) <= Weight(Retarget(bits, b))
  {
    if Exponent(bits) == 0 {
      SmallestMonotone(bits, a, b);
    } else {
      UncappedMonotone(bits, a, b);
    }
  }

  lemma SmallestMonotone(bits: U32, a: nat, b: nat)
    requires Mantissa(bits) != 0 && Exponent(bits) == 0 && a <= b
    ensures Weight(Retarget(bits, a)) <= Weight(Retarget(bits, b))
  {
    ScaledMonotone(Mantissa(bits), a, b);
    TrimmedMonotone(Scaled(Mantissa(bits), a), Scaled(Mantissa(bits), b));
    SmallestExponent(bits, a);
    SmallestExponent(bits, b);
  }

  lemma UncappedMonotone(bits: U32, a: nat, b: nat)
    requires Mantissa(bits) != 0 && Exponent(bits) >= 1 && a <= b && CapIdle(bits, a) && CapIdle(bits, b)
    ensures Weight(Retarget(bits, a)) <= Weight(Retarget(bits, b))
  {
    var e, m := Exponent(bits), Mantissa(bits);
    var s, t := Scaled(m, a), Scaled(m, b);
    ScaledMonotone(m, a, b);
    UncappedWeight(bits, a);
    UncappedWeight(bits, b);
    RenormalisedMonotone(s, t, e);
    Products(Renormalised(s, e), Renormalised(t, e), Pow256(e - 1), Pow256(e - 1));
  }

  /** A longer interval never gives a harder target. */
  ghost predicate Monotone(bits: U32) {
    forall a: nat, b: nat | a <= b :: Weight(Retarget(bits, a)) <= Weight(Retarget(bits, b))
  }

  lemma MonotoneAtCap(bits: U32)
    requires Mantissa(bits) != 0 && Exponent(bits) == MAX_EXPONENT
    ensures Monotone(bits) <==> 4 * Mantissa(bits) <= MAX_MANTISSA
  {
    var m := Mantissa(bits);
    if 4 * m <= MAX_MANTISSA {
      forall a: nat, b: nat | a <= b ensures Weight(Retarget(bits, a)) <= Weight(Retarget(bits, b)) {
        ScaledBounds(m, a);
        ScaledBounds(m, b);
        MonotoneBelowCap(bits, a, b);
      }
    } else {
      DropsAtCap(bits);
    }
  }

  /** The new mantissa when the exponent starts above its cap and always comes out at the cap. */
  function Flat(s: nat): nat {
    if s > MAX_MANTISSA then s / 256 else if s < 0x100 then Max(s * 256, 1) else s
  }

  lemma AboveCap(bits: U32, actual: nat)
    requires Mantissa(bits) != 0 && Exponent(bits) > MAX_EXPONENT
    ensures Exponent(Retarget(bits, actual)) == MAX_EXPONENT
    ensures Mantissa(Retarget(bits, actual)) == Flat(Scaled(Mantissa(bits), actual))
  {
    Outcome(bits, actual);
  }

  /** A mantissa whose scaled values stay on one side of both renormalisation thresholds. */
  predicate Steady(m: nat) { 4 * m <= MAX_MANTISSA && !(0x40 <= m < 0x400) }

  lemma SteadyFlat(m: nat, s: nat, t: nat)
    requires Steady(m) && s <= t <= 4 * m && m <= 4 * s + 3
    ensures Flat(s) <= Flat(t)
  {
  }

  lemma SteadyIsMonotone(bits: U32, a: nat, b: nat)
    requires Mantissa(bits) != 0 && Exponent(bits) > MAX_EXPONENT && Steady(Mantissa(bits)) && a <= b
    ensures Weight(Retarget(bits, a)) <= Weight(Retarget(bits, b))
  {
    var m := Mantissa(bits);
    AboveCap(bits, a);
    AboveCap(bits, b);
    ScaledMonotone(m, a, b);
    ScaledBounds(m, a);
    ScaledBounds(m, b);
    SteadyFlat(m, Scaled(m, a), Scaled(m, b));
    Products(Flat(Scaled(m, a)), Flat(Scaled(m, b)), Pow256(MAX_EXPONENT), Pow256(MAX_EXPONENT));
  }

  lemma QuarterScale(m: nat)
    ensures Scaled(m, EXPECTED_TIME / 4) == m / 4
  {
    assert m * Clamped(EXPECTED_TIME / 4) == 97776 * m;
    assert 391104 == 4 * 97776;
    Floor(m, 4);
    Floor(97776 * m, 391104);
  }

  lemma DropsBetween(bits: U32, a: nat, b: nat, s: nat, t: nat)
    requires Mantissa(bits) != 0 && Exponent(bits) > MAX_EXPONENT
    requires Scaled(Mantissa(bits), a) == s && Scaled(Mantissa(bits), b) == t && Flat(s) > Flat(t)
    ensures Weight(Retarget(bits, a)) > Weight(Retarget(bits, b))
  {
    AboveCap(bits, a);
    AboveCap(bits, b);
    Gap(Flat(t), Flat(s), Pow256(MAX_EXPONENT));
  }

  lemma UnsteadyFlat(m: nat)
    requires !Steady(m) && m <= MAX_MANTISSA
    ensures if 0x100 <= m < 0x400 then Flat(m / 4) > Flat(m) else Flat(m) > Flat(4 * m)
  {
  }

  /** Two intervals, the longer of which gives the harder target: one period against four, or a quarter against one. */
  lemma UnsteadyDrops(bits: U32) returns (a: nat, b: nat)
    requires Mantissa(bits) != 0 && Exponent(bits) > MAX_EXPONENT && !Steady(Mantissa(bits))
    ensures a <= b && Weight(Retarget(bits, a)) > Weight(Retarget(bits, b))
  {
    var m := Mantissa(bits);
    ExactScale(m);
    UnsteadyFlat(m);
    if 0x100 <= m < 0x400 {
      QuarterScale(m);
      a, b := EXPECTED_TIME / 4, EXPECTED_TIME;
      DropsBetween(bits, a, b, m / 4, m);
    } else {
      a, b := EXPECTED_TIME, 4 * EXPECTED_TIME;
      DropsBetween(bits, a, b, m, 4 * m);
    }
  }

  /** Exactly when a longer interval never gives a harder target: below the exponent cap always; at the cap (the
      exponent of the mainnet genesis) when the mantissa cannot outgrow three bytes; above the cap (testnet
      and regtest genesis) when its scaled values also stay on one side of 0x100. */
  lemma MonotoneExactly(bits: U32)
    requires Mantissa(bits) != 0
    ensures Monotone(bits) <==>
            || Exponent(bits) < MAX_EXPONENT
            || (Exponent(bits) == MAX_EXPONENT && 4 * Mantissa(bits) <= MAX_MANTISSA)
            || (Exponent(bits) > MAX_EXPONENT && Steady(Mantissa(bits)))
  {
    if Exponent(bits) < MAX_EXPONENT {
      forall a: nat, b: nat | a <= b ensures Weight(Retarget(bits, a)) <= Weight(Retarget(bits, b)) {
        MonotoneBelowCap(bits, a, b);
      }
    } else if Exponent(bits) == MAX_EXPONENT {
      MonotoneAtCap(bits);
    } else if Steady(Mantissa(bits)) {
      forall a: nat, b: nat | a <= b ensures Weight(Retarget(bits, a)) <= Weight(Retarget(bits, b)) {
        SteadyIsMonotone(bits, a, b);
      }
    } else {
      var a, b := UnsteadyDrops(bits);
    }
  }

  lemma DropsAtCap(bits: U32)
    requires Exponent(bits) == MAX_EXPONENT && 4 * Mantissa(bits) > MAX_MANTISSA
    ensures Weight(Retarget(bits, EXPECTED_TIME)) > Weight(Retarget(bits, 4 * EXPECTED_TIME))
  {
    var m := Mantissa(bits);
    ExactScale(m);
    var r, t := Retarget(bits, EXPECTED_TIME), Retarget(bits, 4 * EXPECTED_TIME);
    assert Exponent(r) == MAX_EXPONENT && Exponent(t) == MAX_EXPONENT;
    assert Mantissa(r) == m && Mantissa(t) == 4 * m / 256;
    Gap(Mantissa(t), Mantissa(r), Pow256(MAX_EXPONENT));
  }

  lemma ExactScale(m: nat)
    ensures Scaled(m, EXPECTED_TIME) == m && Scaled(m, 4 * EXPECTED_TIME) == 4 * m
  {
    assert m * Clamped(EXPECTED_TIME) == 391104 * m && m * Clamped(4 * EXPECTED_TIME) == 391104 * (4 * m);
  }

  /** Retargeting never produces the zero target from a non-zero one. */
  lemma NeverZero(bits: U32, actual: nat)
    ensures Mantissa(bits) != 0 ==> Mantissa(Retarget(bits, actual)) >= 1
    ensures Mantissa(bits) == 0 ==> Retarget(bits, actual) == bits
  {
  }
}

/** The emission schedule (`block_reward` and the supply constants of src/blockchain/block.rs). */
module Emission {
  const BLOCK_REWARD_INITIAL: nat := 32_188_184_932
  const HALVING_INTERVAL: nat := 488_004
  const MAX_SUPPLY: nat := 31_415_926 * 1_000_000_000

  /** `n >> k`: k exact halvings, each rounding down. */
  function Shifted(n: nat, k: nat): nat {
    if k == 0 then n else Shifted(n, k - 1) / 2
  }

  function RewardAfter(halvings: nat): nat {
    if halvings >= 64 then 0 else Shifted(BLOCK_REWARD_INITIAL, halvings)
  }

  function BlockReward(height: nat): nat { RewardAfter(height / HALVING_INTERVAL) }

  /** Everything scheduled below a height. */
  function Emitted(n: nat): nat {
    if n == 0 then 0 else Emitted(n - 1) + BlockReward(n - 1)
  }

  lemma Halving(k: nat)
    ensures 2 * RewardAfter(k + 1) <= RewardAfter(k)
  {
  }

  /** The schedule in one law: the first 488,004 blocks earn 32,188,184,932 each, and 488,004 blocks later every reward has
      halved, rounding down. */
  lemma RewardHalves(height: nat)
    ensures height < 488_004 ==> BlockReward(height) == 32_188_184_932
    ensures BlockReward(height + 488_004) == BlockReward(height) / 2
  {
    var k := height / HALVING_INTERVAL;
    assert (height + HALVING_INTERVAL) / HALVING_INTERVAL == k + 1;
    if k >= 63 { StaysExhausted(k); }
  }

  lemma Exhausted()
    ensures RewardAfter(34) == 1 && RewardAfter(35) == 0
  {
    var r := BLOCK_REWARD_INITIAL;
    assert Shifted(r, 8) == 125735097;
    assert Shifted(r, 16) == 491152;
    assert Shifted(r, 24) == 1918;
    assert Shifted(r, 34) == 1;
  }

  lemma {:induction false} StaysExhausted(k: nat)
    requires k >= 35
    ensures RewardAfter(k) == 0
  {
    if k == 35 {
      Exhausted();
    } else {
      StaysExhausted(k - 1);
      Halving(k - 1);
    }
  }

  /** What is still to come after `r` blocks of epoch `e`, at twice the epoch's own rate. */
  function Outstanding(e: nat, r: nat): nat
    requires r <= HALVING_INTERVAL
  {
    (2 * HALVING_INTERVAL - r) * RewardAfter(e) + if e >= 35 then 1 else 0
  }

  lemma NextEpoch(e: nat)
    ensures Outstanding(e + 1, 0) <= Outstanding(e, HALVING_INTERVAL)
  {
    Halving(e);
    if e == 34 {
      Exhausted();
    } else if e >= 35 {
      StaysExhausted(e);
      StaysExhausted(e + 1);
    } else {
      assert HALVING_INTERVAL * (2 * RewardAfter(e + 1)) <= HALVING_INTERVAL * RewardAfter(e);
    }
  }

  lemma {:induction false} EmittedInEpoch(e: nat, r: nat)
    requires r <= HALVING_INTERVAL
    ensures Emitted(e * HALVING_INTERVAL + r) + Outstanding(e, r) <= 2 * HALVING_INTERVAL * BLOCK_REWARD_INITIAL
    decreases e, r
  {
    if r > 0 {
      EmittedInEpoch(e, r - 1);
      RewardInEpoch(e, r - 1);
      OutstandingStep(e, r);
    } else if e > 0 {
      EmittedInEpoch(e - 1, HALVING_INTERVAL);
      NextEpoch(e - 1);
    }
  }

  lemma RewardInEpoch(e: nat, r: nat)
    requires r < HALVING_INTERVAL
    ensures BlockReward(e * HALVING_INTERVAL + r) == RewardAfter(e)
  {
  }

  lemma OutstandingStep(e: nat, r: nat)
    requires 0 < r <= HALVING_INTERVAL
    ensures Outstanding(e, r - 1) == Outstanding(e, r) + RewardAfter(e)
  {
    var w := RewardAfter(e);
    assert (2 * HALVING_INTERVAL - (r - 1)) * w == (2 * HALVING_INTERVAL - r) * w + w;
  }

  /** However long the chain, the schedule stays strictly below twice the first epoch, and below the cap. */
  lemma EmissionBound(n: nat)
    ensures Emitted(n) < 31_415_925_999_111_456 < MAX_SUPPLY
  {
    var e, r := n / HALVING_INTERVAL, n % HALVING_INTERVAL;
    EmittedInEpoch(e, r);
    OutstandingPositive(e, r);
  }

  lemma OutstandingPositive(e: nat, r: nat)
    requires r <= HALVING_INTERVAL
    ensures Outstanding(e, r) > 0
  {
    if e <= 34 {
      RewardPositive(e);
      assert (2 * HALVING_INTERVAL - r) * RewardAfter(e) >= 1;
    }
  }

  lemma {:induction false} RewardPositive(e: nat)
    requires e <= 34
    ensures RewardAfter(e) >= 1
    decreases 34 - e
  {
    if e == 34 {
      Exhausted();
    } else {
      RewardPositive(e + 1);
      Halving(e);
    }
  }
}
