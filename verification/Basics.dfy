/** Machine integers, byte strings, hexadecimal text and the error values shared by every module. */
module Basics {

  const MAX_U32: nat := 0xFFFF_FFFF
  const MAX_U64: nat := 0xFFFF_FFFF_FFFF_FFFF
  const MAX_U128: nat := 0xFFFF_FFFF_FFFF_FFFF_FFFF_FFFF_FFFF_FFFF

  type Byte = x: int | 0 <= x < 256
  type U32 = x: int | 0 <= x <= MAX_U32
  type U64 = x: int | 0 <= x <= MAX_U64
  type Bytes = seq<Byte>

  /** A hash function with 32-byte digests. */
  type HashFn = h: Bytes -> Bytes | forall x :: |h(x)| == 32 witness x => seq(32, _ => 0)

  /** Hexadecimal text of a digest, or whatever text a peer sends in its place. */
  type Hash = string

  datatype Option<+T> = None | Some(value: T)

  function Lookup<K(==), V>(m: map<K, V>, k: K): Option<V> { if k in m then Some(m[k]) else None }

  datatype Error =
      // transactions
    | ImmatureCoinbase | UtxoNotFound | InputSumOverflow | ScriptFailed
    | Dust | OutputSumOverflow | OutputsExceedInputs
      // block structure
    | PrevHashMismatch | TargetMissed | NoTransactions | TooManyTransactions
    | TooManyBytes | TooManyUtxoOps | FirstNotCoinbase | MerkleMismatch
      // block against its branch
    | HeightMismatch | BitsMismatch | TimestampOutOfRange
    | TooManyCoinbaseOutputs | FeesOverflow | ExcessiveCoinbase
      // block tree
    | UnknownParent | UnknownBlock | MissingWork | WorkOverflow | MintedOverflow
      // mempool, wallet, mining service
    | FeeTooLow | MempoolFull | InsufficientFunds | StaleTemplate

  datatype Result<+T> = Ok(value: T) | Err(error: Error)

  /** Two different inputs in `s` never share an image under `f`. */
  ghost predicate CollisionFree<A(!new), B(!new)>(f: A -> B, s: set<A>) {
    forall x, y :: x in s && y in s && f(x) == f(y) ==> x == y
  }

  function Min(a: int, b: int): int { if a < b then a else b }

  function Max(a: int, b: int): int { if a < b then b else a }

  /** `saturating_sub` of the unsigned types. */
  function SatSub(a: nat, b: nat): nat { if a < b then 0 else a - b }

  /** `saturating_add` of u64. */
  function SatAdd(a: nat, b: nat): nat { Min(a + b, MAX_U64) }

  /** `saturating_mul` of u64. */
  function SatMul(a: nat, b: nat): nat { Min(a * b, MAX_U64) }

  // ---------- byte encodings ----------

  function Pow256(k: nat): (r: nat)
    ensures r >= 1
  {
    if k == 0 then 1 else 256 * Pow256(k - 1)
  }

  /** `to_le_bytes` of a `width`-byte integer. */
  function LeBytes(n: nat, width: nat): (r: Bytes)
    ensures |r| == width
  {
    seq(width, i requires 0 <= i < width => n / Pow256(i) % 256)
  }

  /** `from_le_bytes`. */
  function FromLe(s: Bytes): nat {
    if s == [] then 0 else s[0] + 256 * FromLe(s[1..])
  }

  lemma DivDiv(n: nat, p: nat)
    requires p > 0
    ensures n / 256 / p == n / (256 * p)
  {
    var m, q := n / 256, n / (256 * p);
    var d := m / p;
    assert p * d <= m < p * d + p;
    assert 256 * (p * q) <= n < 256 * (p * q) + 256 * p by { assert 256 * p * q == 256 * (p * q); }
    assert p * (d - q) < p && p * (q - d) < p;
    QuotientGap(p, d - q);
    QuotientGap(p, q - d);
  }

  lemma QuotientGap(p: nat, e: int)
    requires p > 0 && p * e < p
    ensures e < 1
  {
  }

  /** Writing an integer that fits and reading it back is the identity. */
  lemma {:induction false} LeRoundTrip(n: nat, width: nat)
    requires n < Pow256(width)
    ensures FromLe(LeBytes(n, width)) == n
  {
    if width > 0 {
      LeRoundTrip(n / 256, width - 1);
      var s := LeBytes(n, width);
      forall i | 0 <= i < width - 1 ensures s[1..][i] == LeBytes(n / 256, width - 1)[i] {
        DivDiv(n, Pow256(i));
      }
      assert s[1..] == LeBytes(n / 256, width - 1);
      assert s[0] == n / Pow256(0) % 256;
    }
  }

  function HexDigit(n: int): char
    requires 0 <= n < 16
  {
    if n < 10 then '0' + n as char else 'a' + (n - 10) as char
  }

  /** `hex::encode`. */
  function Hex(s: Bytes): (r: string)
    ensures |r| == 2 * |s|
  {
    if s == [] then [] else [HexDigit(s[0] / 16), HexDigit(s[0] % 16)] + Hex(s[1..])
  }

  lemma {:induction false} HexInjective(s: Bytes, t: Bytes)
    requires Hex(s) == Hex(t)
    ensures s == t
  {
    assert |s| == |t|;
    if s != [] {
      var a, b := Hex(s), Hex(t);
      assert a[0] == HexDigit(s[0] / 16) && a[1] == HexDigit(s[0] % 16) && a[2..] == Hex(s[1..]);
      assert b[0] == HexDigit(t[0] / 16) && b[1] == HexDigit(t[0] % 16) && b[2..] == Hex(t[1..]);
      HexInjective(s[1..], t[1..]);
      assert s == [s[0]] + s[1..] && t == [t[0]] + t[1..];
    }
  }

  function Repeat(ch: char, n: nat): string { seq(n, _ => ch) }

  function Zeros(n: nat): Bytes { seq(n, _ => 0) }

  lemma {:induction false} HexOfZeros(n: nat)
    ensures Hex(Zeros(n)) == Repeat('0', 2 * n)
  {
    if n > 0 {
      HexOfZeros(n - 1);
      assert Zeros(n)[1..] == Zeros(n - 1);
    }
  }

  /** Hexadecimal text never contains the separator used in outpoint keys. */
  lemma {:induction false} HexHasNoColon(s: Bytes)
    ensures ':' !in Hex(s)
  {
    if s != [] {
      HexHasNoColon(s[1..]);
    }
  }

  /** Number read from bytes most significant first. */
  function FromBe(s: Bytes): nat {
    if s == [] then 0 else 256 * FromBe(s[..|s| - 1]) + s[|s| - 1]
  }

  lemma {:induction false} PowAdd(a: nat, b: nat)
    ensures Pow256(a + b) == Pow256(a) * Pow256(b)
  {
    if a > 0 { PowAdd(a - 1, b); }
  }

  // ---------- sequences grown one step at a time ----------

  /** Every element after the first was allowed on top of the elements before it. */
  ghost predicate Stepwise<T>(allowed: (seq<T>, T) -> bool, s: seq<T>) {
    forall i | 1 <= i < |s| :: allowed(s[..i], s[i])
  }

  lemma StepwiseExtend<T>(allowed: (seq<T>, T) -> bool, s: seq<T>, x: T)
    requires Stepwise(allowed, s) && s != [] && allowed(s, x)
    ensures Stepwise(allowed, s + [x])
  {
    var t := s + [x];
    forall i | 1 <= i < |t| ensures allowed(t[..i], t[i]) {
      assert t[..i] == s[..i];
      assert s[..|s|] == s;
    }
  }

  /** What the first element has, and every allowed step keeps, holds of every prefix. */
  lemma {:induction false} StepwiseInduct<T(!new)>(allowed: (seq<T>, T) -> bool, good: seq<T> -> bool, s: seq<T>, k: nat)
    requires 1 <= k <= |s| && Stepwise(allowed, s) && good([s[0]])
    requires forall before, x | x in s && allowed(before, x) && good(before) :: good(before + [x])
    ensures good(s[..k])
    decreases k
  {
    if k == 1 {
      assert s[..1] == [s[0]];
    } else {
      StepwiseInduct(allowed, good, s, k - 1);
      assert allowed(s[..k - 1], s[k - 1]);
      assert s[..k] == s[..k - 1] + [s[k - 1]];
    }
  }

  /** Induction over a predicate known only by its steps. */
  lemma {:induction false} Induct(p: nat -> bool, n: nat)
    requires p(0) && forall k: nat | k < n && p(k) :: p(k + 1)
    ensures p(n)
  {
    if n > 0 { Induct(p, n - 1); }
  }

  function Fold<S, E>(step: (S, E) -> S, s: S, es: seq<E>): S {
    if es == [] then s else step(Fold(step, s, es[..|es| - 1]), es[|es| - 1])
  }

  lemma {:induction false} FoldAppend<S, E>(step: (S, E) -> S, s: S, a: seq<E>, b: seq<E>)
    ensures Fold(step, s, a + b) == Fold(step, Fold(step, s, a), b)
    decreases |b|
  {
    if b == [] {
      assert a + b == a;
    } else {
      FoldAppend(step, s, a, b[..|b| - 1]);
      assert (a + b)[..|a + b| - 1] == a + b[..|b| - 1];
    }
  }

  // ---------- sums over maps ----------

  ghost function AnyKey<K, V>(m: map<K, V>): (k: K)
    requires m != map[]
    ensures k in m
  {
    var k :| k in m; k
  }

  /** The sum of `weight` over the values of a map. */
  ghost function SumOver<K, V>(weight: V -> nat, m: map<K, V>): nat
    decreases |m|
  {
    if m == map[] then 0
    else
      var k := AnyKey(m);
      weight(m[k]) + SumOver(weight, m - {k})
  }

  /** Any key may be taken out first. */
  lemma {:induction false} SumWithout<K, V>(weight: V -> nat, m: map<K, V>, k: K)
    requires k in m
    ensures SumOver(weight, m) == weight(m[k]) + SumOver(weight, m - {k})
    decreases |m|
  {
    var first := AnyKey(m);
    if first != k {
      SumWithout(weight, m - {first}, k);
      SumWithout(weight, m - {k}, first);
      assert m - {first} - {k} == m - {k} - {first};
    }
  }

  lemma SumInsert<K, V>(weight: V -> nat, m: map<K, V>, k: K, v: V)
    requires k !in m
    ensures SumOver(weight, m[k := v]) == SumOver(weight, m) + weight(v)
  {
    SumWithout(weight, m[k := v], k);
    assert m[k := v] - {k} == m;
  }
}
