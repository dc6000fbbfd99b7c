/** What every step of a node keeps. */
module Invariant {
  import opened Basics
  import opened Transactions
  import opened Targets
  import opened Timestamps
  import opened Blocks
  import opened BlockTree
  import opened Nodes
  import Merkle

  /** The caches hold what a replay of the active chain from genesis yields. */
  ghost predicate Cached(c: Crypto, n: Node) {
    n.index == IndexOf(KeyOf(c), n.blocks) && Replay(c, n.blocks) == Some(Replayed(n.utxo, n.minted))
  }

  /** The invariant of a node that has stored exactly the blocks of `hist` since genesis. */
  ghost predicate Inv(c: Crypto, g: Block, n: Node, hist: map<Hash, Block>) {
    && IsGenesis(c, g)
    && Consistent(RulesOf(c, n.magic, g), n.Forest(), hist)
    && Settled(n.Forest())
    && Cached(c, n)
  }

  // ---------- the fast path is the slow path ----------

  lemma TipIsFound(r: Rules, f: Forest, hist: map<Hash, Block>)
    requires Tree(r, hist) && Within(f.all, hist) && Active(r, f, hist)
    ensures ChainTo(f.all, r.key(f.blocks[|f.blocks| - 1])) == Some(f.blocks)
  {
    var tip := r.key(f.blocks[|f.blocks| - 1]);
    BranchOf(r, hist, tip);
    KeysFile(r, hist);
    ChainFound(r, f.all, hist, tip);
  }

  /** Whatever the parent, the cached context equals the replayed one, result or error. */
  lemma FastIsSlow(c: Crypto, g: Block, n: Node, hist: map<Hash, Block>, parent: Hash)
    requires Inv(c, g, n, hist)
    ensures ParentContext(c, n, parent) == ReplayContext(c, n.all, parent)
  {
    var r := RulesOf(c, n.magic, g);
    TipIsFound(r, n.Forest(), hist);
    assert r.key(n.blocks[|n.blocks| - 1]) == TipHash(c, n);
  }

  /** What `Check` decides, told by the branch alone. */
  ghost predicate Acceptable(c: Crypto, g: Block, n: Node, hist: map<Hash, Block>, b: Block, now: nat) {
    var parent := b.header.prevHash;
    && parent in hist
    && ChainTo(n.all, parent).Some?
    && Lawful(c, n.magic, Branch(hist, parent), b)
    && b.header.timestamp <= now + MAX_DRIFT
    && Work(RulesOf(c, n.magic, g), Branch(hist, parent)) + BlockWork(b.header.bits) <= MAX_U128
  }

  lemma ContextIsLawful(c: Crypto, magic: U32, chain: seq<Block>, b: Block, now: nat)
    requires Numbered(chain)
    ensures (&& Replay(c, chain).Some?
             && ValidateStructure(c, b, BlockHash(c, chain[|chain| - 1])).Ok?
             && b.height == |chain|
             && ValidateInContext(c, magic, chain, Replay(c, chain).value, b, now).Ok?) <==>
            Lawful(c, magic, chain, b) && b.header.timestamp <= now + MAX_DRIFT
  {
  }

  lemma CheckByReplay(c: Crypto, magic: U32, all: map<Hash, Block>, work: nat, b: Block, now: nat, chain: seq<Block>)
    requires ChainTo(all, b.header.prevHash) == Some(chain)
    ensures var parent := b.header.prevHash;
            CheckIn(c, magic, Some(all[parent]), Some(work), ReplayContext(c, all, parent), b, now).Ok? <==>
            Lawful(c, magic, chain, b) && b.header.timestamp <= now + MAX_DRIFT && work + BlockWork(b.header.bits) <= MAX_U128
  {
    ContextIsLawful(c, magic, chain, b, now);
  }

  lemma CheckValue(c: Crypto, magic: U32, parent: Option<Block>, work: Option<nat>, context: Result<Context>,
          b: Block, now: nat)
    requires context.Ok? ==> Numbered(context.value.chain)
    requires CheckIn(c, magic, parent, work, context, b, now).Ok?
    ensures context.Ok? && parent.Some? && work.Some?
    ensures CheckIn(c, magic, parent, work, context, b, now).value == work.value + BlockWork(b.header.bits)
  {
  }

  lemma ForestFacts(r: Rules, f: Forest, hist: map<Hash, Block>, parent: Hash)
    requires Tree(r, hist) && Within(f.all, hist) && Weighed(r, f, hist) && ChainTo(f.all, parent).Some?
    ensures parent in f.work && parent in hist && f.work[parent] == Work(r, Branch(hist, parent))
    ensures ChainTo(f.all, parent) == Some(Branch(hist, parent))
  {
    ChainGrows(f.all, hist, parent);
  }

  /** A block's verdict depends on its own branch only: it passes exactly when its ancestors are retained, it is
      lawful on their branch, its timestamp is at most two hours ahead and the total work fits u128. Which
      branch happens to be active plays no part. */
  lemma VerdictByBranch(c: Crypto, g: Block, n: Node, hist: map<Hash, Block>, b: Block, now: nat)
    requires Inv(c, g, n, hist)
    ensures Check(c, n, b, now).Ok? <==> Acceptable(c, g, n, hist, b, now)
    ensures Check(c, n, b, now).Ok? ==>
            Check(c, n, b, now).value == Work(RulesOf(c, n.magic, g), Branch(hist, b.header.prevHash)) + BlockWork(b.header.bits)
  {
    var r, parent := RulesOf(c, n.magic, g), b.header.prevHash;
    var slow := ReplayContext(c, n.all, parent);
    FastIsSlow(c, g, n, hist, parent);
    if ChainTo(n.all, parent).Some? {
      ForestFacts(r, n.Forest(), hist, parent);
      CheckByReplay(c, n.magic, n.all, n.work[parent], b, now, Branch(hist, parent));
    }
    if Check(c, n, b, now).Ok? {
      CheckValue(c, n.magic, Lookup(n.all, parent), Lookup(n.work, parent), slow, b, now);
    }
  }

  // ---------- a hash names one block ----------

  ghost function HashInputs(c: Crypto, s: set<Block>): set<Bytes> {
    (set b | b in s :: c.headerBytes(b.header))
    + (set b, x | b in s && x in Merkle.Hashed(c.hash256, Serialized(c, b.transactions)) :: x)
  }

  /** A header that names its parent by the text of a digest and commits to the block's own body. Peers may send
      anything, but nothing else passes validation. */
  ghost predicate Canonical(c: Crypto, b: Block) {
    (exists x: Bytes :: |x| == 32 && b.header.prevHash == Hex(x)) && b.header.merkleRoot == MerkleRoot(c, b.transactions)
  }

  ghost function Canonicals(c: Crypto, s: set<Block>): set<Block> { set b | b in s && Canonical(c, b) }

  /** Hashing and serialisation do not collide on the canonical blocks among these. */
  ghost predicate NoCollisions(c: Crypto, s: set<Block>) { CollisionFreeOn(c, Canonicals(c, s)) }

  ghost predicate CollisionFreeOn(c: Crypto, s: set<Block>) {
    && BincodeLayout(c)
    && CollisionFree(c.hash256, HashInputs(c, s))
    && CollisionFree(c.headerBytes, set b | b in s :: b.header)
    && CollisionFree(c.serialize, set b, t | b in s && t in b.transactions :: t)
  }

  lemma LawfulIsCanonical(c: Crypto, magic: U32, chain: seq<Block>, b: Block)
    requires Lawful(c, magic, chain, b)
    ensures Canonical(c, b)
  {
    LawfulHeight(c, magic, chain, b);
    LawfulRoot(c, magic, chain, b);
    var x := c.hash256(c.headerBytes(chain[|chain| - 1].header));
    assert |x| == 32 && b.header.prevHash == Hex(x);
  }

  lemma GenesisIsCanonical(c: Crypto, g: Block)
    requires IsGenesis(c, g)
    ensures Canonical(c, g)
  {
    HexOfZeros(32);
    assert |Zeros(32)| == 32 && g.header.prevHash == Hex(Zeros(32));
  }

  lemma SameHeader(c: Crypto, s: set<Block>, a: Block, b: Block)
    requires CollisionFreeOn(c, s) && a in s && b in s && BlockHash(c, a) == BlockHash(c, b)
    ensures a.header == b.header
  {
    HexInjective(c.hash256(c.headerBytes(a.header)), c.hash256(c.headerBytes(b.header)));
    assert c.headerBytes(a.header) in HashInputs(c, s) && c.headerBytes(b.header) in HashInputs(c, s);
  }

  lemma MerkleInputs(c: Crypto, s: set<Block>, b: Block)
    requires b in s
    ensures Merkle.Hashed(c.hash256, Serialized(c, b.transactions)) <= HashInputs(c, s)
  {
  }

  lemma NoCollisionsBetween(c: Crypto, s: set<Block>, a: Block, b: Block)
    requires CollisionFreeOn(c, s) && a in s && b in s
    ensures CollisionFree(c.hash256, Merkle.Hashed(c.hash256, Serialized(c, a.transactions))
                                     + Merkle.Hashed(c.hash256, Serialized(c, b.transactions)))
    ensures CollisionFree(c.serialize, (set t | t in a.transactions) + (set t | t in b.transactions))
  {
    MerkleInputs(c, s, a);
    MerkleInputs(c, s, b);
  }

  lemma LawfulSameHeader(c: Crypto, magic: U32, s: set<Block>, chainA: seq<Block>, a: Block, chainB: seq<Block>, b: Block)
    requires NoCollisions(c, s) && a in s && b in s && BlockHash(c, a) == BlockHash(c, b)
    requires Lawful(c, magic, chainA, a) && Lawful(c, magic, chainB, b)
    ensures a.header == b.header
  {
    LawfulIsCanonical(c, magic, chainA, a);
    LawfulIsCanonical(c, magic, chainB, b);
    SameHeader(c, Canonicals(c, s), a, b);
  }

  /** Two lawful blocks on one branch with the same header are the same block. */
  lemma SameTransactions(c: Crypto, magic: U32, s: set<Block>, chain: seq<Block>, a: Block, b: Block)
    requires NoCollisions(c, s) && a in s && b in s && a.header == b.header
    requires Lawful(c, magic, chain, a) && Lawful(c, magic, chain, b)
    ensures a == b
  {
    LawfulIsCanonical(c, magic, chain, a);
    LawfulIsCanonical(c, magic, chain, b);
    NoCollisionsBetween(c, Canonicals(c, s), a, b);
    HeaderCommits(c, magic, chain, a, chain, b);
    LawfulHeight(c, magic, chain, a);
    LawfulHeight(c, magic, chain, b);
  }

  lemma StoredIsLawful(r: Rules, hist: map<Hash, Block>, h: Hash)
    requires Tree(r, hist) && h in hist && hist[h].height > 0
    ensures r.allowed(Branch(hist, hist[h].header.prevHash), hist[h])
  {
    BranchOf(r, hist, h);
    var s, below := Branch(hist, h), Branch(hist, hist[h].header.prevHash);
    assert s == below + [hist[h]];
    GrownAt(r, s, |s| - 1);
    assert s[..|s| - 1] == below;
  }

  lemma GenesisRetained(r: Rules, f: Forest, hist: map<Hash, Block>, h: Hash)
    requires Tree(r, hist) && Active(r, f, hist) && h in hist && hist[h].height == 0
    ensures h in f.all
  {
    BranchOf(r, hist, h);
    BranchOf(r, hist, r.key(f.blocks[|f.blocks| - 1]));
    assert Branch(hist, h)[0] == r.genesis == f.blocks[0];
    assert r.key(f.blocks[0]) in f.all;
  }

  lemma LawfulTwins(c: Crypto, magic: U32, g: Block, hist: map<Hash, Block>, b: Block, s: set<Block>)
    requires NoCollisions(c, s) && hist.Values <= s && b in s && Tree(RulesOf(c, magic, g), hist)
    requires BlockHash(c, b) in hist && hist[BlockHash(c, b)].height > 0
    requires Lawful(c, magic, Branch(hist, b.header.prevHash), b)
    ensures hist[BlockHash(c, b)] == b
  {
    var r, a := RulesOf(c, magic, g), hist[BlockHash(c, b)];
    assert a in hist.Values;
    BranchOf(r, hist, BlockHash(c, b));
    StoredIsLawful(r, hist, BlockHash(c, b));
    LawfulSameHeader(c, magic, s, Branch(hist, a.header.prevHash), a, Branch(hist, b.header.prevHash), b);
    SameTransactions(c, magic, s, Branch(hist, b.header.prevHash), a, b);
  }

  /** A block that passes again after it was pruned is the block that was stored. */
  lemma HashNamesBlock(c: Crypto, g: Block, n: Node, hist: map<Hash, Block>, b: Block, now: nat, s: set<Block>)
    requires Inv(c, g, n, hist) && Acceptable(c, g, n, hist, b, now)
    requires NoCollisions(c, s) && hist.Values <= s && b in s
    requires BlockHash(c, b) !in n.all && BlockHash(c, b) in hist
    ensures hist[BlockHash(c, b)] == b
  {
    if hist[BlockHash(c, b)].height == 0 {
      GenesisRetained(RulesOf(c, n.magic, g), n.Forest(), hist, BlockHash(c, b));
    } else {
      LawfulTwins(c, n.magic, g, hist, b, s);
    }
  }

  // ---------- one block ----------

  /** The blocks stored so far, after a delivery. */
  ghost function Grow(c: Crypto, n: Node, hist: map<Hash, Block>, b: Block, now: nat): map<Hash, Block>
    requires Numbered(n.blocks)
  {
    if BlockHash(c, b) in n.all || Check(c, n, b, now).Err? then hist else hist[BlockHash(c, b) := b]
  }

  /** A validated, new block is accepted by the tree with exactly its branch's work. */
  lemma PassesToTree(c: Crypto, g: Block, n: Node, hist: map<Hash, Block>, b: Block, now: nat, s: set<Block>)
    requires Inv(c, g, n, hist) && NoCollisions(c, s) && hist.Values <= s && b in s
    requires BlockHash(c, b) !in n.all && Check(c, n, b, now).Ok?
    ensures Accepted(RulesOf(c, n.magic, g), n.Forest(), hist, b, Check(c, n, b, now).value)
  {
    VerdictByBranch(c, g, n, hist, b, now);
    if BlockHash(c, b) in hist {
      HashNamesBlock(c, g, n, hist, b, now, s);
    }
    assert LawfulStep(c, n.magic)(Branch(hist, b.header.prevHash), b);
  }

  lemma TipWork(r: Rules, f: Forest, hist: map<Hash, Block>, b: Block, w: nat)
    requires Active(r, f, hist) && Weighed(r, f, hist) && r.key(b) !in f.all
    ensures var tip := r.key(f.blocks[|f.blocks| - 1]);
            tip in Stored(r.key, f, b, w).work && Stored(r.key, f, b, w).work[tip] == Work(r, f.blocks)
  {
    var tip := r.key(f.blocks[|f.blocks| - 1]);
    assert tip in f.all;
    assert f.work[tip] == Work(r, Branch(hist, tip));
  }

  lemma ActivateIsRebuild(c: Crypto, n: Node, h: Hash, chain: seq<Block>)
    requires ChainTo(n.all, h) == Some(chain)
    ensures Activate(c, n, h) == Rebuild(c, n, chain)
    ensures Rebuild(c, n, chain).result.Err? <==> Replay(c, chain).None?
  {
  }

  lemma AdmitOutcome(c: Crypto, n: Node, b: Block, w: nat, m: Node)
    requires Numbered(n.blocks) && m == Store(c, n, b, w) && m.blocks != []
    ensures Admit(c, n, b, w) ==
            if TipHash(c, m) !in m.work then Step(m, Err(MissingWork))
            else Finish(c, if w > m.work[TipHash(c, m)] then Activate(c, m, BlockHash(c, b)) else Step(m, Ok(())))
  {
  }

  /** With the block stored in `m`: prune, if its work does not exceed the tip's; else make its branch the active chain and
      prune, unless the branch does not replay. */
  function ByWork(c: Crypto, m: Node, w: nat, chain: seq<Block>, tipWork: nat): Step {
    if w <= tipWork then Step(Prune(c, m), Ok(()))
    else if Replay(c, chain).None? then Rebuild(c, m, chain)
    else Step(Prune(c, Rebuild(c, m, chain).node), Ok(()))
  }

  lemma AdmitCases(c: Crypto, n: Node, b: Block, w: nat, m: Node, chain: seq<Block>, tipWork: nat)
    requires Numbered(n.blocks) && m == Store(c, n, b, w) && m.blocks != []
    requires TipHash(c, m) in m.work && m.work[TipHash(c, m)] == tipWork && ChainTo(m.all, BlockHash(c, b)) == Some(chain)
    ensures Admit(c, n, b, w) == ByWork(c, m, w, chain, tipWork)
  {
    AdmitOutcome(c, n, b, w, m);
    ActivateIsRebuild(c, m, BlockHash(c, b), chain);
  }

  /** What admission does, in terms of the branch of the new block. */
  lemma AdmitByWork(c: Crypto, g: Block, n: Node, hist: map<Hash, Block>, b: Block, w: nat)
    requires Inv(c, g, n, hist) && Accepted(RulesOf(c, n.magic, g), n.Forest(), hist, b, w) && BlockHash(c, b) !in n.all
    ensures Admit(c, n, b, w) ==
            ByWork(c, Store(c, n, b, w), w, Branch(hist, b.header.prevHash) + [b], Work(RulesOf(c, n.magic, g), n.blocks))
  {
    StoreFacts(c, g, n, hist, b, w);
    AdmitCases(c, n, b, w, Store(c, n, b, w), Branch(hist, b.header.prevHash) + [b], Work(RulesOf(c, n.magic, g), n.blocks));
  }

  lemma StoreFacts(c: Crypto, g: Block, n: Node, hist: map<Hash, Block>, b: Block, w: nat)
    requires Inv(c, g, n, hist) && Accepted(RulesOf(c, n.magic, g), n.Forest(), hist, b, w) && BlockHash(c, b) !in n.all
    ensures var m := Store(c, n, b, w);
            && m.blocks == n.blocks && TipHash(c, m) in m.work && m.work[TipHash(c, m)] == Work(RulesOf(c, n.magic, g), n.blocks)
            && ChainTo(m.all, BlockHash(c, b)) == Some(Branch(hist, b.header.prevHash) + [b])
  {
    StoreKeepsTip(c, g, n, hist, b, w);
    StoreFindsBranch(c, g, n, hist, b, w);
  }

  lemma StoreKeepsTip(c: Crypto, g: Block, n: Node, hist: map<Hash, Block>, b: Block, w: nat)
    requires Inv(c, g, n, hist) && BlockHash(c, b) !in n.all
    ensures var m := Store(c, n, b, w);
            m.blocks == n.blocks && TipHash(c, m) in m.work && m.work[TipHash(c, m)] == Work(RulesOf(c, n.magic, g), n.blocks)
  {
    TipWork(RulesOf(c, n.magic, g), n.Forest(), hist, b, w);
  }

  lemma StoreFindsBranch(c: Crypto, g: Block, n: Node, hist: map<Hash, Block>, b: Block, w: nat)
    requires Inv(c, g, n, hist) && Accepted(RulesOf(c, n.magic, g), n.Forest(), hist, b, w)
    ensures ChainTo(Store(c, n, b, w).all, BlockHash(c, b)) == Some(Branch(hist, b.header.prevHash) + [b])
  {
    RulesAreSound(c, n.magic, g);
    AncestorsPresent(RulesOf(c, n.magic, g), n.Forest(), hist, b, w);
  }

  lemma PruneKeeps(c: Crypto, g: Block, n: Node, hist: map<Hash, Block>)
    requires IsGenesis(c, g) && Consistent(RulesOf(c, n.magic, g), n.Forest(), hist) && Cached(c, n)
    ensures Inv(c, g, Prune(c, n), hist)
  {
    var r := RulesOf(c, n.magic, g);
    PruneSettles(r, n.Forest(), hist);
    assert Prune(c, n).Forest() == Pruned(r.key, n.Forest());
  }

  /** Every validated block, whether it becomes the tip, a side block or a block whose branch cannot be
      replayed, keeps the invariant. */
  lemma AdmitKeeps(c: Crypto, g: Block, n: Node, hist: map<Hash, Block>, b: Block, w: nat)
    requires Inv(c, g, n, hist) && Accepted(RulesOf(c, n.magic, g), n.Forest(), hist, b, w) && BlockHash(c, b) !in n.all
    ensures Inv(c, g, Admit(c, n, b, w).node, hist[BlockHash(c, b) := b])
  {
    var r, m, f := RulesOf(c, n.magic, g), Store(c, n, b, w), n.Forest();
    var after, chain := hist[BlockHash(c, b) := b], Branch(hist, b.header.prevHash) + [b];
    RulesAreSound(c, n.magic, g);
    AdmitByWork(c, g, n, hist, b, w);
    assert r.key(b) == BlockHash(c, b) && m.Forest() == Stored(r.key, f, b, w);
    if w <= Work(r, n.blocks) {
      SideBlock(r, f, hist, b, w);
      PruneKeeps(c, g, m, after);
    } else if Replay(c, chain).None? {
      SideBlock(r, f, hist, b, w);
      StuckSettled(r, f, hist, b, w);
    } else {
      NewTip(r, f, hist, b, w);
      PruneKeeps(c, g, Rebuild(c, m, chain).node, after);
    }
  }

  lemma ValuesGrow(hist: map<Hash, Block>, h: Hash, b: Block, s: set<Block>)
    requires hist.Values <= s && b in s
    ensures hist[h := b].Values <= s
  {
    var after := hist[h := b];
    forall v | v in after.Values ensures v in s {
      var k :| k in after && after[k] == v;
      assert k != h ==> v in hist.Values;
    }
  }

  /** One delivery, of any block at any time, keeps the invariant. */
  lemma DeliveryKeeps(c: Crypto, g: Block, n: Node, hist: map<Hash, Block>, b: Block, now: nat, s: set<Block>)
    requires Inv(c, g, n, hist) && NoCollisions(c, s) && hist.Values <= s && b in s
    ensures Inv(c, g, AddBlock(c, n, b, now).node, Grow(c, n, hist, b, now))
    ensures Grow(c, n, hist, b, now).Values <= s
  {
    ValuesGrow(hist, BlockHash(c, b), b, s);
    if BlockHash(c, b) in n.all || Check(c, n, b, now).Err? {
      Refused(c, n, hist, b, now);
    } else {
      PassesToTree(c, g, n, hist, b, now, s);
      AdmitKeeps(c, g, n, hist, b, Check(c, n, b, now).value);
      Passed(c, n, hist, b, now);
    }
  }

  lemma Refused(c: Crypto, n: Node, hist: map<Hash, Block>, b: Block, now: nat)
    requires Numbered(n.blocks) && (BlockHash(c, b) in n.all || Check(c, n, b, now).Err?)
    ensures AddBlock(c, n, b, now).node == n && Grow(c, n, hist, b, now) == hist
  {
  }

  lemma Passed(c: Crypto, n: Node, hist: map<Hash, Block>, b: Block, now: nat)
    requires Numbered(n.blocks) && BlockHash(c, b) !in n.all && Check(c, n, b, now).Ok?
    ensures AddBlock(c, n, b, now) == Admit(c, n, b, Check(c, n, b, now).value)
    ensures Grow(c, n, hist, b, now) == hist[BlockHash(c, b) := b]
  {
  }
}
