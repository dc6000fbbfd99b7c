/** The length-committed Merkle tree over transaction digests, for an arbitrary 32-byte hash `h`. */
module Merkle {
  import opened Basics

  /** A string fed to the hash: a leaf, two joined digests, or the commitment to a level's length. */
  datatype Preimage = Leaf(bytes: Bytes) | Pair(left: Bytes, right: Bytes) | Length(commitment: Bytes)

  function Encode(p: Preimage): Bytes {
    match p
    case Leaf(b) => b
    case Pair(l, r) => l + r
    case Length(b) => b
  }

  /** The lengths that tell the three kinds apart: 64 for pairs, 8 for commitments, neither for leaves. */
  predicate WellSized(p: Preimage) {
    match p
    case Leaf(b) => |b| != 8 && |b| != 64
    case Pair(l, r) => |l| == 32 && |r| == 32
    case Length(b) => |b| == 8
  }

  lemma EncodeInjective(p: Preimage, q: Preimage)
    requires WellSized(p) && WellSized(q) && Encode(p) == Encode(q)
    ensures p == q
  {
    if p.Pair? && q.Pair? {
      var x := Encode(p);
      assert p.left == x[..32] && q.left == x[..32];
      assert p.right == x[32..] && q.right == x[32..];
    }
  }

  function Digest(h: HashFn, p: Preimage): Bytes { h(Encode(p)) }

  function Digests(h: HashFn, level: seq<Preimage>): (r: seq<Bytes>)
    ensures |r| == |level|
  {
    if level == [] then [] else [Digest(h, level[0])] + Digests(h, level[1..])
  }

  function Commitment(n: nat): Preimage { Length(LeBytes(n, 8)) }

  /** Neighbours joined in pairs; an odd last digest is joined with `pad`. */
  function Pairs(ds: seq<Bytes>, pad: Bytes): (r: seq<Preimage>)
    ensures ds != [] ==> r != []
    ensures |ds| > 1 ==> |r| < |ds|
    decreases |ds|
  {
    if ds == [] then []
    else if |ds| == 1 then [Pair(ds[0], pad)]
    else [Pair(ds[0], ds[1])] + Pairs(ds[2..], pad)
  }

  /** From the preimages of one level to the preimages of the level above. */
  function Next(h: HashFn, level: seq<Preimage>): (r: seq<Preimage>)
    ensures level != [] ==> r != []
    ensures |level| > 1 ==> |r| < |level|
  {
    Pairs(Digests(h, level), Digest(h, Commitment(|level|)))
  }

  /** Preimage of the root of the tree whose lowest level is `level`. */
  function Top(h: HashFn, level: seq<Preimage>): Preimage
    requires level != []
    decreases |level|
  {
    if |level| == 1 then level[0] else Top(h, Next(h, level))
  }

  function Leaves(strings: seq<Bytes>): (r: seq<Preimage>)
    ensures |r| == |strings|
  {
    seq(|strings|, i requires 0 <= i < |strings| => Leaf(strings[i]))
  }

  /** The Merkle root of a non-empty list of leaf strings. */
  function Root(h: HashFn, strings: seq<Bytes>): Bytes
    requires strings != []
  {
    Digest(h, Top(h, Leaves(strings)))
  }

  /** Every string fed to the hash on the way from `level` to the root. */
  ghost function Fed(h: HashFn, level: seq<Preimage>): set<Preimage>
    decreases |level|
  {
    (set p | p in level) + {Commitment(|level|)} + if |level| <= 1 then {} else Fed(h, Next(h, level))
  }

  // ---------- one level ----------

  /** Different preimages in `s` have different digests. */
  ghost predicate Separates(h: HashFn, s: set<Preimage>) {
    forall p, q :: p in s && q in s && Digest(h, p) == Digest(h, q) ==> p == q
  }

  ghost predicate AllIn(level: seq<Preimage>, s: set<Preimage>) {
    forall i | 0 <= i < |level| :: level[i] in s
  }

  lemma {:induction false} DigestsInjective(h: HashFn, a: seq<Preimage>, b: seq<Preimage>, s: set<Preimage>)
    requires Separates(h, s) && AllIn(a, s) && AllIn(b, s)
    requires Digests(h, a) == Digests(h, b)
    ensures a == b
  {
    if a != [] {
      assert |b| == |a|;
      assert Digests(h, a)[0] == Digests(h, b)[0];
      assert Digests(h, a)[1..] == Digests(h, a[1..]) && Digests(h, b)[1..] == Digests(h, b[1..]);
      DigestsInjective(h, a[1..], b[1..], s);
      assert a == [a[0]] + a[1..] && b == [b[0]] + b[1..];
    }
  }

  /** A commitment is never the digest of a leaf or of a pair. */
  lemma {:induction false} CommitmentAbsent(h: HashFn, level: seq<Preimage>, p: Preimage, s: set<Preimage>)
    requires Separates(h, s) && AllIn(level, s) && p in s && p.Length?
    requires forall i | 0 <= i < |level| :: !level[i].Length?
    ensures Digest(h, p) !in Digests(h, level)
  {
    if level != [] {
      CommitmentAbsent(h, level[1..], p, s);
    }
  }

  /** Equal pair lists come from equal digest lists: neither list can end in the other's pad. */
  lemma {:induction false} PairsInjective(a: seq<Bytes>, b: seq<Bytes>, padA: Bytes, padB: Bytes)
    requires Pairs(a, padA) == Pairs(b, padB)
    requires padA !in b && padB !in a
    ensures a == b
    decreases |a|
  {
    if a != [] && b != [] {
      if |a| == 1 && |b| == 1 {
        assert Pairs(a, padA)[0] == Pairs(b, padB)[0];
      } else if |a| == 1 {
        LoneDiffers(a, b, padA, padB);
      } else if |b| == 1 {
        LoneDiffers(b, a, padB, padA);
      } else {
        var x, y := Pairs(a, padA), Pairs(b, padB);
        assert x[0] == y[0];
        assert x[1..] == Pairs(a[2..], padA) && y[1..] == Pairs(b[2..], padB);
        PairsInjective(a[2..], b[2..], padA, padB);
        assert a == [a[0], a[1]] + a[2..] && b == [b[0], b[1]] + b[2..];
      }
    }
  }

  lemma LoneDiffers(a: seq<Bytes>, b: seq<Bytes>, padA: Bytes, padB: Bytes)
    requires |a| == 1 && |b| > 1 && padA !in b
    ensures Pairs(a, padA)[0] != Pairs(b, padB)[0]
  {
    assert Pairs(a, padA)[0].right == padA && Pairs(b, padB)[0].right == b[1];
  }

  lemma NextInjective(h: HashFn, a: seq<Preimage>, b: seq<Preimage>, s: set<Preimage>)
    requires Separates(h, s) && AllIn(a, s) && AllIn(b, s)
    requires Commitment(|a|) in s && Commitment(|b|) in s
    requires forall i | 0 <= i < |a| :: !a[i].Length?
    requires forall i | 0 <= i < |b| :: !b[i].Length?
    requires Next(h, a) == Next(h, b)
    ensures a == b
  {
    CommitmentAbsent(h, a, Commitment(|b|), s);
    CommitmentAbsent(h, b, Commitment(|a|), s);
    PairsInjective(Digests(h, a), Digests(h, b), Digest(h, Commitment(|a|)), Digest(h, Commitment(|b|)));
    DigestsInjective(h, a, b, s);
  }

  lemma {:induction false} PairsArePairs(ds: seq<Bytes>, pad: Bytes)
    ensures forall i | 0 <= i < |Pairs(ds, pad)| :: Pairs(ds, pad)[i].Pair?
    decreases |ds|
  {
    if |ds| > 1 { PairsArePairs(ds[2..], pad); }
  }

  lemma NextHead(h: HashFn, level: seq<Preimage>)
    requires level != []
    ensures forall i | 0 <= i < |Next(h, level)| :: Next(h, level)[i].Pair?
    ensures Next(h, level)[0].left == Digest(h, level[0])
  {
    PairsArePairs(Digests(h, level), Digest(h, Commitment(|level|)));
  }

  // ---------- towers of levels ----------

  /** Level `k` of a tower whose preimages lie in `s`. */
  ghost predicate Storey(h: HashFn, t: seq<seq<Preimage>>, s: set<Preimage>, k: nat)
    requires k < |t|
  {
    && t[k] != [] && AllIn(t[k], s) && Commitment(|t[k]|) in s
    && (k + 1 < |t| ==> t[k + 1] == Next(h, t[k]))
  }

  ghost predicate IsTower(h: HashFn, t: seq<seq<Preimage>>, s: set<Preimage>) {
    && |t| > 0 && (forall i | 0 <= i < |t[0]| :: t[0][i].Leaf?)
    && forall k | 0 <= k < |t| :: Storey(h, t, s, k)
  }

  lemma Parts(xs: set<Preimage>, y: Preimage, rest: set<Preimage>, s: set<Preimage>)
    requires xs + {y} + rest <= s
    ensures xs <= s && y in s && rest <= s
  {
    assert y in xs + {y} + rest;
  }

  lemma FedStep(h: HashFn, level: seq<Preimage>, s: set<Preimage>)
    requires Fed(h, level) <= s
    ensures AllIn(level, s) && Commitment(|level|) in s
    ensures |level| > 1 ==> Fed(h, Next(h, level)) <= s
  {
    var xs := set p | p in level;
    Parts(xs, Commitment(|level|), if |level| <= 1 then {} else Fed(h, Next(h, level)), s);
    assert forall i | 0 <= i < |level| :: level[i] in xs;
  }

  /** A tower without the condition on its lowest level. */
  ghost predicate IsStack(h: HashFn, t: seq<seq<Preimage>>, s: set<Preimage>) {
    |t| > 0 && forall k | 0 <= k < |t| :: Storey(h, t, s, k)
  }

  lemma PutBelow(h: HashFn, level: seq<Preimage>, t: seq<seq<Preimage>>, s: set<Preimage>)
    requires IsStack(h, t, s) && level != [] && t[0] == Next(h, level)
    requires AllIn(level, s) && Commitment(|level|) in s
    ensures IsStack(h, [level] + t, s)
  {
    var u := [level] + t;
    forall k | 0 <= k < |u| ensures Storey(h, u, s, k) {
      if k > 0 {
        assert Storey(h, t, s, k - 1);
        assert u[k] == t[k - 1] && (k + 1 < |u| ==> u[k + 1] == t[k]);
      }
    }
  }

  lemma {:induction false} BuildStack(h: HashFn, level: seq<Preimage>, s: set<Preimage>) returns (t: seq<seq<Preimage>>)
    requires level != [] && Fed(h, level) <= s
    ensures IsStack(h, t, s) && t[0] == level && t[|t| - 1] == [Top(h, level)] && Top(h, level) in s
    decreases |level|
  {
    FedStep(h, level, s);
    if |level| == 1 {
      t := [level];
      assert Storey(h, t, s, 0);
    } else {
      var above := BuildStack(h, Next(h, level), s);
      PutBelow(h, level, above, s);
      t := [level] + above;
    }
  }

  lemma UpperStorey(h: HashFn, t: seq<seq<Preimage>>, s: set<Preimage>, k: nat)
    requires IsTower(h, t, s) && k + 1 < |t|
    ensures t[k] != [] && t[k][0] in s
    ensures t[k + 1] != [] && t[k + 1][0].Pair? && t[k + 1][0].left == Digest(h, t[k][0])
  {
    assert Storey(h, t, s, k);
    NextHead(h, t[k]);
  }

  lemma NoCommitments(h: HashFn, t: seq<seq<Preimage>>, s: set<Preimage>, k: nat)
    requires IsTower(h, t, s) && k < |t|
    ensures forall i | 0 <= i < |t[k]| :: !t[k][i].Length?
  {
    if k > 0 {
      assert Storey(h, t, s, k - 1);
      NextHead(h, t[k - 1]);
    }
  }

  lemma StoreysAgree(h: HashFn, t: seq<seq<Preimage>>, u: seq<seq<Preimage>>, s: set<Preimage>, k: nat)
    requires Separates(h, s) && IsTower(h, t, s) && IsTower(h, u, s)
    requires k + 1 < |t| && |t| == |u| && t[k + 1] == u[k + 1]
    ensures t[k] == u[k]
  {
    NoCommitments(h, t, s, k);
    NoCommitments(h, u, s, k);
    assert Storey(h, t, s, k) && Storey(h, u, s, k);
    NextInjective(h, t[k], u[k], s);
  }

  /** Towers of equal height with the same top agree at every level. */
  lemma {:induction false} EqualHeights(h: HashFn, t: seq<seq<Preimage>>, u: seq<seq<Preimage>>, s: set<Preimage>, k: nat)
    requires Separates(h, s) && IsTower(h, t, s) && IsTower(h, u, s)
    requires |t| == |u| && t[|t| - 1] == u[|u| - 1]
    requires k < |t|
    ensures t[k] == u[k]
    decreases |t| - k
  {
    if k + 1 < |t| {
      EqualHeights(h, t, u, s, k + 1);
      StoreysAgree(h, t, u, s, k);
    }
  }

  lemma SpineStep(h: HashFn, t: seq<seq<Preimage>>, u: seq<seq<Preimage>>, s: set<Preimage>, i: nat, j: nat)
    requires Separates(h, s) && IsTower(h, t, s) && IsTower(h, u, s)
    requires i + 1 < |t| && j + 1 < |u|
    requires t[i + 1] != [] && u[j + 1] != [] && t[i + 1][0] == u[j + 1][0]
    ensures t[i] != [] && u[j] != [] && t[i][0] == u[j][0]
  {
    UpperStorey(h, t, s, i);
    UpperStorey(h, u, s, j);
  }

  /** Towers of any heights with the same top share their left spine, counted from the top. */
  lemma {:induction false} SpinesAgree(h: HashFn, t: seq<seq<Preimage>>, u: seq<seq<Preimage>>, s: set<Preimage>,
          i: nat, j: nat)
    requires Separates(h, s) && IsTower(h, t, s) && IsTower(h, u, s)
    requires t[|t| - 1] == u[|u| - 1]
    requires i < |t| && j < |u| && |t| - i == |u| - j
    ensures t[i] != [] && u[j] != [] && t[i][0] == u[j][0]
    decreases |t| - i
  {
    if i + 1 == |t| {
      assert Storey(h, t, s, i);
    } else {
      SpinesAgree(h, t, u, s, i + 1, j + 1);
      SpineStep(h, t, u, s, i, j);
    }
  }

  lemma TallerDiffers(h: HashFn, t: seq<seq<Preimage>>, u: seq<seq<Preimage>>, s: set<Preimage>, k: nat)
    requires Separates(h, s) && IsTower(h, t, s) && IsTower(h, u, s)
    requires |t| + k + 1 == |u|
    ensures t[|t| - 1] != u[|u| - 1]
  {
    if t[|t| - 1] == u[|u| - 1] {
      SpinesAgree(h, t, u, s, 0, k + 1);
      UpperStorey(h, u, s, k);
    }
  }

  lemma TowersAgree(h: HashFn, t: seq<seq<Preimage>>, u: seq<seq<Preimage>>, s: set<Preimage>)
    requires Separates(h, s) && IsTower(h, t, s) && IsTower(h, u, s)
    requires t[|t| - 1] == u[|u| - 1]
    ensures t[0] == u[0]
  {
    if |t| < |u| {
      TallerDiffers(h, t, u, s, |u| - |t| - 1);
    } else if |u| < |t| {
      TallerDiffers(h, u, t, s, |t| - |u| - 1);
    } else {
      EqualHeights(h, t, u, s, 0);
    }
  }

  // ---------- a leaf and its path to the root ----------

  lemma {:induction false} DigestAt(h: HashFn, level: seq<Preimage>, i: nat)
    requires i < |level|
    ensures Digests(h, level)[i] == Digest(h, level[i])
    decreases |level|
  {
    if i > 0 { DigestAt(h, level[1..], i - 1); }
  }

  lemma {:induction false} PairAt(ds: seq<Bytes>, pad: Bytes, i: nat)
    requires i < |ds|
    ensures i / 2 < |Pairs(ds, pad)|
    ensures Pairs(ds, pad)[i / 2] == Pair(ds[i / 2 * 2], if i / 2 * 2 + 1 < |ds| then ds[i / 2 * 2 + 1] else pad)
    decreases |ds|
  {
    if i >= 2 {
      PairAt(ds[2..], pad, i - 2);
      assert Pairs(ds, pad)[i / 2] == Pairs(ds[2..], pad)[i / 2 - 1];
    }
  }

  /** The digest beside entry `i` of a level: its neighbour, or the digest of the level's length where there is none. */
  function Neighbour(h: HashFn, level: seq<Preimage>, i: nat): Bytes
    requires i < |level|
  {
    if i % 2 == 1 then Digest(h, level[i - 1])
    else if i + 1 < |level| then Digest(h, level[i + 1]) else h(LeBytes(|level|, 8))
  }

  /** One level up: an even position is the left half of its pair, an odd one the right half. */
  function Join(h: HashFn, digest: Bytes, i: nat, beside: Bytes): Bytes {
    if i % 2 == 0 then h(digest + beside) else h(beside + digest)
  }

  lemma OneLevelUp(h: HashFn, level: seq<Preimage>, i: nat)
    requires i < |level|
    ensures i / 2 < |Next(h, level)|
    ensures Digest(h, Next(h, level)[i / 2]) == Join(h, Digest(h, level[i]), i, Neighbour(h, level, i))
  {
    PairAt(Digests(h, level), Digest(h, Commitment(|level|)), i);
    DigestAt(h, level, i);
    if i % 2 == 1 {
      DigestAt(h, level, i - 1);
    } else if i + 1 < |level| {
      DigestAt(h, level, i + 1);
    }
  }

  /** The digests beside the way from entry `i` of a level up to the root. */
  function Beside(h: HashFn, level: seq<Preimage>, i: nat): seq<Bytes>
    requires i < |level|
    decreases |level|
  {
    if |level| == 1 then []
    else
      OneLevelUp(h, level, i);
      [Neighbour(h, level, i)] + Beside(h, Next(h, level), i / 2)
  }

  /** Climbing from a digest at position `i` past the digests beside the way. */
  function Climb(h: HashFn, digest: Bytes, i: nat, beside: seq<Bytes>): Bytes
    decreases |beside|
  {
    if beside == [] then digest else Climb(h, Join(h, digest, i, beside[0]), i / 2, beside[1..])
  }

  lemma ClimbOne(h: HashFn, digest: Bytes, i: nat, first: Bytes, rest: seq<Bytes>)
    ensures Climb(h, digest, i, [first] + rest) == Climb(h, Join(h, digest, i, first), i / 2, rest)
  {
    assert ([first] + rest)[1..] == rest;
  }

  lemma {:induction false} ClimbReaches(h: HashFn, level: seq<Preimage>, i: nat)
    requires i < |level|
    ensures Climb(h, Digest(h, level[i]), i, Beside(h, level, i)) == Digest(h, Top(h, level))
    decreases |level|
  {
    if |level| > 1 {
      OneLevelUp(h, level, i);
      ClimbReaches(h, Next(h, level), i / 2);
      ClimbOne(h, Digest(h, level[i]), i, Neighbour(h, level, i), Beside(h, Next(h, level), i / 2));
    }
  }

  /** Every leaf of every tree reaches the root by its position: hash the leaf, then on each level join it with the digest
      beside it, on the side its position says. */
  lemma LeafReachesRoot(h: HashFn, strings: seq<Bytes>, i: nat)
    requires i < |strings|
    ensures Climb(h, h(strings[i]), i, Beside(h, Leaves(strings), i)) == Root(h, strings)
  {
    ClimbReaches(h, Leaves(strings), i);
  }

  // ---------- the theorem ----------

  lemma LeafTower(h: HashFn, a: seq<Bytes>, s: set<Preimage>) returns (t: seq<seq<Preimage>>)
    requires a != [] && Fed(h, Leaves(a)) <= s
    ensures IsTower(h, t, s) && t[0] == Leaves(a) && t[|t| - 1] == [Top(h, Leaves(a))] && Top(h, Leaves(a)) in s
  {
    t := BuildStack(h, Leaves(a), s);
  }

  lemma TopInjective(h: HashFn, a: seq<Bytes>, b: seq<Bytes>, s: set<Preimage>)
    requires a != [] && b != [] && Separates(h, s)
    requires Fed(h, Leaves(a)) <= s && Fed(h, Leaves(b)) <= s
    requires Root(h, a) == Root(h, b)
    ensures a == b
  {
    var t := LeafTower(h, a, s);
    var u := LeafTower(h, b, s);
    assert Top(h, Leaves(a)) == Top(h, Leaves(b));
    TowersAgree(h, t, u, s);
    LeavesInjective(a, b);
  }

  lemma LeavesInjective(a: seq<Bytes>, b: seq<Bytes>)
    requires Leaves(a) == Leaves(b)
    ensures a == b
  {
    forall i | 0 <= i < |a| ensures a[i] == b[i] {
      assert Leaves(a)[i] == Leaf(a[i]) && Leaves(b)[i] == Leaf(b[i]);
    }
  }

  lemma {:induction false} DigestsAreWide(h: HashFn, level: seq<Preimage>)
    ensures forall i | 0 <= i < |Digests(h, level)| :: |Digests(h, level)[i]| == 32
  {
    if level != [] { DigestsAreWide(h, level[1..]); }
  }

  lemma {:induction false} PairsAreWellSized(ds: seq<Bytes>, pad: Bytes)
    requires |pad| == 32 && forall i | 0 <= i < |ds| :: |ds[i]| == 32
    ensures forall i | 0 <= i < |Pairs(ds, pad)| :: WellSized(Pairs(ds, pad)[i])
    decreases |ds|
  {
    if |ds| > 1 { PairsAreWellSized(ds[2..], pad); }
  }

  lemma {:induction false} FedIsWellSized(h: HashFn, level: seq<Preimage>)
    requires forall i | 0 <= i < |level| :: WellSized(level[i])
    ensures forall p | p in Fed(h, level) :: WellSized(p)
    decreases |level|
  {
    if |level| > 1 {
      DigestsAreWide(h, level);
      PairsAreWellSized(Digests(h, level), Digest(h, Commitment(|level|)));
      FedIsWellSized(h, Next(h, level));
    }
  }

  /** The byte strings hashed while computing the root of `strings`. */
  ghost function Hashed(h: HashFn, strings: seq<Bytes>): set<Bytes> {
    set p | p in Fed(h, Leaves(strings)) :: Encode(p)
  }

  predicate LeafSizes(strings: seq<Bytes>) {
    forall i | 0 <= i < |strings| :: |strings[i]| != 8 && |strings[i]| != 64
  }

  lemma SeparatesOnFed(h: HashFn, s: set<Preimage>, bytes: set<Bytes>)
    requires forall p | p in s :: WellSized(p) && Encode(p) in bytes
    requires CollisionFree(h, bytes)
    ensures Separates(h, s)
  {
    forall p, q | p in s && q in s && Digest(h, p) == Digest(h, q) ensures p == q {
      assert h(Encode(p)) == h(Encode(q));
      EncodeInjective(p, q);
    }
  }

  /** Two non-empty lists of any lengths have the same root exactly when they are the same list, as long
      as leaves are never 8 or 64 bytes long and the strings the two computations hash do not collide. */
  lemma RootInjective(h: HashFn, a: seq<Bytes>, b: seq<Bytes>)
    requires a != [] && b != [] && LeafSizes(a) && LeafSizes(b)
    requires CollisionFree(h, Hashed(h, a) + Hashed(h, b))
    ensures Root(h, a) == Root(h, b) <==> a == b
  {
    if Root(h, a) == Root(h, b) {
      var s := Fed(h, Leaves(a)) + Fed(h, Leaves(b));
      LeavesFeed(h, a);
      LeavesFeed(h, b);
      SeparatesOnFed(h, s, Hashed(h, a) + Hashed(h, b));
      TopInjective(h, a, b, s);
    }
  }

  lemma LeavesFeed(h: HashFn, strings: seq<Bytes>)
    requires LeafSizes(strings)
    ensures forall p | p in Fed(h, Leaves(strings)) :: WellSized(p) && Encode(p) in Hashed(h, strings)
  {
    FedIsWellSized(h, Leaves(strings));
  }

  // ---------- the loop ----------

  /** The digests of the level above, from the digests of one level. */
  function Up(h: HashFn, ds: seq<Bytes>, pad: Bytes): (r: seq<Bytes>)
    decreases |ds|
  {
    if ds == [] then []
    else if |ds| == 1 then [h(ds[0] + pad)]
    else [h(ds[0] + ds[1])] + Up(h, ds[2..], pad)
  }

  lemma {:induction false} UpIsPairs(h: HashFn, ds: seq<Bytes>, pad: Bytes)
    ensures Up(h, ds, pad) == Digests(h, Pairs(ds, pad))
    decreases |ds|
  {
    if |ds| > 1 {
      UpIsPairs(h, ds[2..], pad);
      assert Pairs(ds, pad)[1..] == Pairs(ds[2..], pad);
    }
  }

  lemma {:induction false} UpEven(h: HashFn, ds: seq<Bytes>, pad: Bytes, n: nat)
    requires |ds| == 2 * n + 1
    ensures Up(h, ds + [pad], pad) == Up(h, ds, pad)
  {
    var es := ds + [pad];
    if n > 0 {
      UpEven(h, ds[2..], pad, n - 1);
      assert es[2..] == ds[2..] + [pad];
    } else {
      assert es[2..] == [];
    }
  }

  lemma {:induction false} UpTwoMore(h: HashFn, ds: seq<Bytes>, pad: Bytes, i: nat)
    requires 2 * i + 1 < |ds|
    ensures Up(h, ds[..2 * i + 2], pad) == Up(h, ds[..2 * i], pad) + [h(ds[2 * i] + ds[2 * i + 1])]
    decreases |ds|
  {
    if i == 0 {
      assert ds[..2][2..] == [];
    } else {
      UpTwoMore(h, ds[2..], pad, i - 1);
      assert ds[..2 * i + 2][2..] == ds[2..][..2 * (i - 1) + 2] && ds[..2 * i][2..] == ds[2..][..2 * (i - 1)];
    }
  }

  /** `chunks(2)` over an even level. */
  method HashPairs(h: HashFn, ds: seq<Bytes>, n: nat, ghost pad: Bytes) returns (next: seq<Bytes>)
    requires |ds| == 2 * n
    ensures next == Up(h, ds, pad)
  {
    next := [];
    for i := 0 to n
      invariant next == Up(h, ds[..2 * i], pad)
    {
      UpTwoMore(h, ds, pad, i);
      next := next + [h(ds[2 * i] + ds[2 * i + 1])];
    }
    assert ds[..2 * n] == ds;
  }

  lemma TopStep(h: HashFn, level: seq<Preimage>)
    requires |level| > 1
    ensures Top(h, level) == Top(h, Next(h, level))
    ensures Digests(h, Next(h, level)) == Up(h, Digests(h, level), h(LeBytes(|level|, 8)))
  {
    UpIsPairs(h, Digests(h, level), Digest(h, Commitment(|level|)));
  }

  method NextLevel(h: HashFn, hashes: seq<Bytes>) returns (next: seq<Bytes>)
    ensures next == Up(h, hashes, h(LeBytes(|hashes|, 8)))
  {
    var n := |hashes| / 2;
    var pad := h(LeBytes(|hashes|, 8));
    if |hashes| % 2 == 0 {
      next := HashPairs(h, hashes, n, pad);
    } else {
      UpEven(h, hashes, pad, n);
      next := HashPairs(h, hashes + [pad], n + 1, pad);
    }
  }

  /** The halving loop: each iteration replaces the level by the one above it. */
  method ClimbToRoot(h: HashFn, strings: seq<Bytes>) returns (root: Bytes)
    requires strings != []
    ensures root == Root(h, strings)
  {
    ghost var level := Leaves(strings);
    var hashes := HashLeaves(h, strings);
    while |hashes| > 1
      invariant level != [] && hashes == Digests(h, level)
      invariant Top(h, level) == Top(h, Leaves(strings))
      decreases |level|
    {
      TopStep(h, level);
      hashes := NextLevel(h, hashes);
      level := Next(h, level);
    }
    root := hashes[0];
  }

  method HashLeaves(h: HashFn, strings: seq<Bytes>) returns (ds: seq<Bytes>)
    ensures ds == Digests(h, Leaves(strings))
  {
    ds := [];
    var i := |strings|;
    while i > 0
      invariant 0 <= i <= |strings|
      invariant ds == Digests(h, Leaves(strings[i..]))
    {
      i := i - 1;
      assert Leaves(strings[i..])[1..] == Leaves(strings[i + 1..]);
      ds := [h(strings[i])] + ds;
    }
    assert strings[0..] == strings;
  }
}
