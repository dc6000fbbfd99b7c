/** Compact difficulty targets, the proof-of-work comparison and block work
    (src/blockchain/block.rs, `block_work` in src/blockchain/chain.rs). */
module Targets {
  import opened Basics

  function Exponent(bits: U32): (e: nat)
    ensures e < 256
  {
    bits / 0x100_0000
  }

  function Mantissa(bits: U32): (m: nat)
    ensures m < 0x100_0000
  {
    bits % 0x100_0000
  }

  /** `(exp << 24) | mantissa`. */
  function Compact(exp: nat, mantissa: nat): (bits: U32)
    requires exp < 256 && mantissa < 0x100_0000
    ensures Exponent(bits) == exp && Mantissa(bits) == mantissa
  {
    exp * 0x100_0000 + mantissa
  }

  /** Byte `i` of the mantissa, most significant first, when the target starts at `start`. */
  function TargetByte(mantissa: nat, start: nat, i: nat): Byte {
    if i == start then mantissa / 0x1_0000 % 256
    else if i == start + 1 then mantissa / 0x100 % 256
    else if i == start + 2 then mantissa % 256
    else 0
  }

  /** The 32-byte target. */
  function Target(bits: U32): (t: Bytes)
    ensures |t| == 32
  {
    if 1 <= Exponent(bits) <= 32
    then seq(32, i requires 0 <= i < 32 => TargetByte(Mantissa(bits), 32 - Exponent(bits), i))
    else seq(32, _ => 0)
  }

  /** The number a compact target stands for. */
  function TargetValue(bits: U32): nat {
    var e := Exponent(bits);
    if e == 0 || e > 32 then 0
    else if e >= 3 then Mantissa(bits) * Pow256(e - 3)
    else if e == 2 then Mantissa(bits) / 0x100
    else Mantissa(bits) / 0x1_0000
  }

  /** Byte-by-byte comparison from the most significant byte. */
  predicate LexLe(h: Bytes, t: Bytes)
    requires |h| == |t|
  {
    h == [] || h[0] < t[0] || (h[0] == t[0] && LexLe(h[1..], t[1..]))
  }

  /** `u128::MAX / prefix` of the target's upper half, saturating when that half is zero. */
  function BlockWork(bits: U32): nat { WorkOf(FromBe(Target(bits)[..16])) }

  function WorkOf(prefix: nat): nat {
    if prefix == 0 then MAX_U128 else MAX_U128 / prefix
  }

  // ---------- bytes and numbers ----------

  lemma {:induction false} FromBeBound(s: Bytes)
    ensures FromBe(s) < Pow256(|s|)
  {
    if s != [] { FromBeBound(s[..|s| - 1]); }
  }

  lemma {:induction false} FromBeSplit(s: Bytes, k: nat)
    requires k <= |s|
    ensures FromBe(s) == FromBe(s[..k]) * Pow256(|s| - k) + FromBe(s[k..])
    decreases |s|
  {
    if k == |s| {
      assert s[..k] == s;
    } else {
      var n := |s| - 1;
      FromBeSplit(s[..n], k);
      assert s[..n][..k] == s[..k] && s[k..][..n - k] == s[..n][k..];
      SplitArith(FromBe(s[..k]), Pow256(n - k), FromBe(s[..n][k..]), s[n]);
    }
  }

  lemma SplitArith(a: nat, p: nat, x: nat, b: nat)
    ensures 256 * (a * p + x) + b == a * (256 * p) + (256 * x + b)
  {
  }

  lemma {:induction false} FromBeZero(s: Bytes)
    requires forall i | 0 <= i < |s| :: s[i] == 0
    ensures FromBe(s) == 0
  {
    if s != [] { FromBeZero(s[..|s| - 1]); }
  }

  lemma LexStep(p: nat, a: nat, b: nat, x: nat, y: nat)
    requires x < p && y < p
    ensures a < b ==> a * p + x < b * p + y
    ensures a == b ==> (a * p + x <= b * p + y <==> x <= y)
  {
    if a < b {
      assert (a + 1) * p <= b * p;
    }
  }

  /** The byte comparison decides the numeric comparison. */
  lemma {:induction false} LexIsNumeric(h: Bytes, t: Bytes)
    requires |h| == |t|
    ensures LexLe(h, t) <==> FromBe(h) <= FromBe(t)
  {
    if h != [] {
      LexIsNumeric(h[1..], t[1..]);
      FromBeSplit(h, 1);
      FromBeSplit(t, 1);
      FromBeBound(h[1..]);
      FromBeBound(t[1..]);
      assert FromBe(h[..1]) == h[0] && FromBe(t[..1]) == t[0];
      LexStep(Pow256(|h| - 1), h[0], t[0], FromBe(h[1..]), FromBe(t[1..]));
      LexStep(Pow256(|h| - 1), t[0], h[0], FromBe(t[1..]), FromBe(h[1..]));
    }
  }

  // ---------- the value of a target ----------

  lemma OneByte(x: Byte)
    ensures FromBe([x]) == x
  {
    assert [x][..0] == [];
  }

  lemma AddByte(s: Bytes, x: Byte)
    ensures FromBe(s + [x]) == 256 * FromBe(s) + x
  {
    assert (s + [x])[..|s|] == s;
  }

  function MantissaBytes(m: nat): (r: Bytes)
    ensures |r| == 3
  {
    [m / 0x1_0000 % 256, m / 0x100 % 256, m % 256]
  }

  lemma MantissaReads(m: nat)
    requires m < 0x100_0000
    ensures FromBe(MantissaBytes(m)) == m
    ensures FromBe(MantissaBytes(m)[..2]) == m / 0x100
    ensures FromBe(MantissaBytes(m)[..1]) == m / 0x1_0000
  {
    var s := MantissaBytes(m);
    OneByte(s[0]);
    AddByte([s[0]], s[1]);
    AddByte([s[0], s[1]], s[2]);
    assert s[..1] == [s[0]] && s[..2] == [s[0], s[1]] == [s[0]] + [s[1]] && s == [s[0], s[1]] + [s[2]];
    assert m / 0x1_0000 % 256 == m / 0x1_0000;
    assert 256 * (m / 0x1_0000) + m / 0x100 % 256 == m / 0x100;
  }

  lemma TargetLayout(bits: U32)
    requires 1 <= Exponent(bits) <= 32
    ensures var e, t, b := Exponent(bits), Target(bits), MantissaBytes(Mantissa(bits));
            && (forall i | 0 <= i < 32 - e :: t[i] == 0)
            && t[32 - e..][..Min(e, 3)] == b[..Min(e, 3)]
            && (forall i | 35 - e <= i < 32 :: t[i] == 0)
  {
  }

  lemma ZeroPrefix(t: Bytes, k: nat)
    requires k <= |t| && forall i | 0 <= i < k :: t[i] == 0
    ensures FromBe(t) == FromBe(t[k..])
  {
    FromBeSplit(t, k);
    FromBeZero(t[..k]);
  }

  lemma ZeroSuffix(t: Bytes, k: nat)
    requires k <= |t| && forall i | k <= i < |t| :: t[i] == 0
    ensures FromBe(t) == FromBe(t[..k]) * Pow256(|t| - k)
  {
    FromBeSplit(t, k);
    FromBeZero(t[k..]);
  }

  /** Reading the target bytes gives mantissa * 256^(exp - 3), truncated below exponent 3. */
  lemma TargetReads(bits: U32)
    ensures FromBe(Target(bits)) == TargetValue(bits)
  {
    var e, m, t := Exponent(bits), Mantissa(bits), Target(bits);
    if e == 0 || e > 32 {
      FromBeZero(t);
    } else {
      TargetLayout(bits);
      ZeroPrefix(t, 32 - e);
      MantissaReads(m);
      var u := t[32 - e..];
      if e >= 3 {
        assert MantissaBytes(m)[..3] == MantissaBytes(m);
        ZeroSuffix(u, 3);
      } else {
        assert u[..e] == u;
      }
    }
  }

  /** For a full mantissa, the proof-of-work check accepts a hash exactly when its number is at most
      mantissa * 256^(exp - 3). */
  lemma WorkCheckExact(bits: U32, hash: Bytes)
    requires |hash| == 32 && 3 <= Exponent(bits) <= 32
    ensures LexLe(hash, Target(bits)) <==> FromBe(hash) <= Mantissa(bits) * Pow256(Exponent(bits) - 3)
  {
    LexIsNumeric(hash, Target(bits));
    TargetReads(bits);
  }

  lemma MulMonotone(a: nat, b: nat, y: nat)
    requires a <= b
    ensures a * y <= b * y
  {
  }

  lemma Floor(n: nat, p: nat)
    requires p > 0
    ensures p * (n / p) <= n < p * (n / p) + p
  {
  }

  lemma GapOfProducts(a: nat, x: nat, y: nat)
    requires a > 0 && a * y < a * x + a
    ensures y <= x
  {
    assert a * (y - x) == a * y - a * x;
    QuotientGap(a, y - x);
  }

  lemma DivMonotone(n: nat, a: nat, b: nat)
    requires 0 < a <= b
    ensures n / b <= n / a
  {
    Floor(n, a);
    Floor(n, b);
    MulMonotone(a, b, n / b);
    GapOfProducts(a, n / a, n / b);
  }

  lemma UpperHalf(bits: U32)
    ensures FromBe(Target(bits)[..16]) == TargetValue(bits) / Pow256(16)
  {
    var t := Target(bits);
    TargetReads(bits);
    FromBeSplit(t, 16);
    FromBeBound(t[16..]);
    Quotient(TargetValue(bits), Pow256(16), FromBe(t[..16]), FromBe(t[16..]));
  }

  lemma Quotient(n: nat, p: nat, q: nat, r: nat)
    requires p > 0 && r < p && n == q * p + r
    ensures n / p == q
  {
    Floor(n, p);
    GapOfProducts(p, n / p, q);
    GapOfProducts(p, q, n / p);
  }

  /** Every block adds work, and a harder target never adds less. */
  lemma WorkAntitone(a: U32, b: U32)
    requires TargetValue(a) <= TargetValue(b)
    ensures 1 <= BlockWork(b) <= BlockWork(a) <= MAX_U128
  {
    UpperHalf(a);
    UpperHalf(b);
    WorkAtLeastOne(a);
    WorkAtLeastOne(b);
    FloorMonotone(TargetValue(a), TargetValue(b), Pow256(16));
    var x, y := FromBe(Target(a)[..16]), FromBe(Target(b)[..16]);
    if x > 0 {
      DivMonotone(MAX_U128, x, y);
    }
  }

  lemma FloorMonotone(a: nat, b: nat, p: nat)
    requires p > 0 && a <= b
    ensures a / p <= b / p
  {
    Floor(a, p);
    Floor(b, p);
    GapOfProducts(p, b / p, a / p);
  }

  lemma WorkAtLeastOne(bits: U32)
    ensures 1 <= BlockWork(bits) <= MAX_U128
  {
    var prefix := FromBe(Target(bits)[..16]);
    FromBeBound(Target(bits)[..16]);
    PowSixteen();
    if prefix > 0 {
      DivMonotone(MAX_U128, prefix, MAX_U128);
      DivMonotone(MAX_U128, 1, prefix);
    }
  }

  lemma PowSixteen()
    ensures Pow256(16) == MAX_U128 + 1
  {
    assert Pow256(4) == 0x1_0000_0000;
    PowAdd(4, 4);
    PowAdd(8, 8);
  }

  /** Block work, in numbers: 2^128 - 1 divided by the upper half of the target, rounding down, or 2^128 - 1 itself when
      that half is zero. */
  lemma WorkExact(bits: U32)
    ensures var half, work := TargetValue(bits) / Pow256(16), BlockWork(bits);
            if half == 0 then work == MAX_U128 else work * half <= MAX_U128 < (work + 1) * half
  {
    UpperHalf(bits);
    if TargetValue(bits) / Pow256(16) != 0 { WorkFloor(TargetValue(bits) / Pow256(16)); }
  }

  lemma WorkFloor(half: nat)
    requires half > 0
    ensures WorkOf(half) * half <= MAX_U128 < (WorkOf(half) + 1) * half
  {
    Floor(MAX_U128, half);
  }

  // ---------- the code ----------

  /** `bits_to_target`: an all-zero array with up to three bytes filled in. */
  method BitsToTarget(bits: U32) returns (target: array<Byte>)
    ensures fresh(target) && target[..] == Target(bits)
  {
    var exp, mantissa := Exponent(bits), Mantissa(bits);
    target := new Byte[32](_ => 0);
    if 1 <= exp <= 32 {
      var start := 32 - exp;
      target[start] := mantissa / 0x1_0000 % 256;
      if start + 1 < 32 {
        target[start + 1] := mantissa / 0x100 % 256;
      }
      if start + 2 < 32 {
        target[start + 2] := mantissa % 256;
      }
    }
  }

  /** `hash_le_target`: the first differing byte decides. */
  method HashLeTarget(hash: Bytes, target: Bytes) returns (ok: bool)
    requires |hash| == |target|
    ensures ok <==> FromBe(hash) <= FromBe(target)
  {
    for i := 0 to |hash|
      invariant LexLe(hash, target) == LexLe(hash[i..], target[i..])
    {
      assert hash[i..][1..] == hash[i + 1..] && target[i..][1..] == target[i + 1..];
      LexIsNumeric(hash, target);
      if hash[i] < target[i] { return true; }
      if hash[i] > target[i] { return false; }
    }
    LexIsNumeric(hash, target);
    ok := true;
  }
}
