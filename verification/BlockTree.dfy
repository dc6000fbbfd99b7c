/** The tree of stored blocks, its fork choice and its pruning, for any rules that tie a block to the
    branch below it (the block-tree half of src/blockchain/chain.rs). */
module BlockTree {
  import opened Basics
  import opened Blocks

  const FINALITY_DEPTH: nat := 200

  /** `chain_to_hash`: from genesis up to the block filed under `h`, when every ancestor is there and each
      link raises the height by one. (In every reachable node every link does.) */
  function ChainTo(all: map<Hash, Block>, h: Hash): (r: Option<seq<Block>>)
    ensures r.Some? ==> h in all && Numbered(r.value) && |r.value| == all[h].height + 1 && r.value[|r.value| - 1] == all[h]
    decreases if h in all then all[h].height + 1 else 0
  {
    if h !in all then None
    else
      var b := all[h];
      var prev := b.header.prevHash;
      if b.height == 0 then Some([b])
      else if prev !in all || all[prev].height + 1 != b.height then None
      else
        match ChainTo(all, prev)
        case None => None
        case Some(below) => Some(below + [b])
  }

  /** What a block tree needs to know about its blocks: the hash that files a block, when a block may stand on
      a branch, the work it adds, and whether a branch can be replayed. */
  datatype Rules = Rules(
    key: Block -> Hash,
    allowed: (seq<Block>, Block) -> bool,
    weight: Block -> nat,
    replays: seq<Block> -> bool,
    genesis: Block)

  /** A block stands on a branch by height and hash, only on branches that replay, and its work is fixed by
      the branch. */
  ghost predicate Sound(r: Rules) {
    && r.genesis.height == 0 && r.replays([r.genesis])
    && (forall chain, b :: r.allowed(chain, b) ==> Extends(r, chain, b))
    && (forall chain, a, b :: r.allowed(chain, a) && r.allowed(chain, b) ==> r.weight(a) == r.weight(b))
  }

  ghost predicate Extends(r: Rules, chain: seq<Block>, b: Block) {
    && chain != [] && b.height == |chain|
    && b.header.prevHash == r.key(chain[|chain| - 1])
    && r.replays(chain)
  }

  function Work(r: Rules, chain: seq<Block>): nat {
    if chain == [] then 0 else Work(r, chain[..|chain| - 1]) + r.weight(chain[|chain| - 1])
  }

  ghost function Branch(hist: map<Hash, Block>, h: Hash): seq<Block> {
    match ChainTo(hist, h) case None => [] case Some(s) => s
  }

  ghost predicate Grown(r: Rules, chain: seq<Block>) {
    chain != [] && chain[0] == r.genesis && Stepwise(r.allowed, chain)
  }

  ghost predicate OnTree(r: Rules, hist: map<Hash, Block>, h: Hash)
    requires h in hist
  {
    r.key(hist[h]) == h && ChainTo(hist, h).Some? && Grown(r, Branch(hist, h))
  }

  /** Every block ever stored hangs, through lawful blocks, from the same genesis. */
  ghost predicate Tree(r: Rules, hist: map<Hash, Block>) {
    forall h {:trigger OnTree(r, hist, h)} | h in hist :: OnTree(r, hist, h)
  }

  ghost predicate Within(all: map<Hash, Block>, hist: map<Hash, Block>) {
    forall h | h in all :: h in hist && hist[h] == all[h]
  }

  ghost predicate Retained(r: Rules, all: map<Hash, Block>, chain: seq<Block>) {
    forall i | 0 <= i < |chain| :: r.key(chain[i]) in all
  }

  // ---------- walking the tree ----------

  lemma {:induction false} ChainGrows(all: map<Hash, Block>, hist: map<Hash, Block>, h: Hash)
    requires Within(all, hist) && ChainTo(all, h).Some?
    ensures ChainTo(hist, h) == ChainTo(all, h)
    decreases all[h].height
  {
    if all[h].height > 0 {
      ChainGrows(all, hist, all[h].header.prevHash);
    }
  }

  /** Each block of a chain is filed under its key, and the chain up to it is its own chain. */
  lemma {:induction false} ChainParts(r: Rules, all: map<Hash, Block>, h: Hash, i: nat)
    requires ChainTo(all, h).Some? && i < |ChainTo(all, h).value|
    requires forall k | k in all :: r.key(all[k]) == k
    ensures var s := ChainTo(all, h).value;
            r.key(s[i]) in all && all[r.key(s[i])] == s[i] && ChainTo(all, r.key(s[i])) == Some(s[..i + 1])
    decreases all[h].height
  {
    var s := ChainTo(all, h).value;
    if i == |s| - 1 {
      assert s[..i + 1] == s;
    } else {
      var below := ChainTo(all, all[h].header.prevHash).value;
      ChainParts(r, all, all[h].header.prevHash, i);
      assert s == below + [all[h]];
      assert s[..i + 1] == below[..i + 1];
    }
  }

  /** A branch of the history whose blocks are all retained is found by the walk. */
  lemma {:induction false} ChainFound(r: Rules, all: map<Hash, Block>, hist: map<Hash, Block>, h: Hash)
    requires Within(all, hist) && ChainTo(hist, h).Some? && Retained(r, all, ChainTo(hist, h).value)
    requires forall k | k in hist :: r.key(hist[k]) == k
    ensures ChainTo(all, h) == ChainTo(hist, h)
    decreases hist[h].height
  {
    var s := ChainTo(hist, h).value;
    assert r.key(s[|s| - 1]) in all;
    if hist[h].height > 0 {
      var prev := hist[h].header.prevHash;
      var below := ChainTo(hist, prev).value;
      assert s == below + [hist[h]];
      forall i | 0 <= i < |below| ensures r.key(below[i]) in all { assert s[i] == below[i]; }
      ChainFound(r, all, hist, prev);
    }
  }

  lemma KeysFile(r: Rules, hist: map<Hash, Block>)
    requires Tree(r, hist)
    ensures forall k | k in hist :: r.key(hist[k]) == k
  {
    forall k | k in hist ensures r.key(hist[k]) == k { assert OnTree(r, hist, k); }
  }

  lemma BranchOf(r: Rules, hist: map<Hash, Block>, h: Hash)
    requires Tree(r, hist) && h in hist
    ensures ChainTo(hist, h) == Some(Branch(hist, h)) && Grown(r, Branch(hist, h)) && r.key(hist[h]) == h
  {
    assert OnTree(r, hist, h);
  }

  lemma GrownAt(r: Rules, chain: seq<Block>, i: nat)
    requires Grown(r, chain) && 1 <= i < |chain|
    ensures r.allowed(chain[..i], chain[i])
  {
  }

  lemma GrownExtends(r: Rules, chain: seq<Block>, b: Block)
    requires Grown(r, chain) && r.allowed(chain, b)
    ensures Grown(r, chain + [b])
  {
    StepwiseExtend(r.allowed, chain, b);
  }

  lemma WorkGrows(r: Rules, chain: seq<Block>, b: Block)
    ensures Work(r, chain + [b]) == Work(r, chain) + r.weight(b)
  {
    assert (chain + [b])[..|chain|] == chain;
  }

  lemma {:induction false} WorkPrefix(r: Rules, chain: seq<Block>, k: nat)
    requires k <= |chain|
    ensures Work(r, chain[..k]) <= Work(r, chain)
    decreases |chain|
  {
    if k < |chain| {
      WorkPrefix(r, chain[..|chain| - 1], k);
      assert chain[..|chain| - 1][..k] == chain[..k];
    } else {
      assert chain[..k] == chain;
    }
  }

  // ---------- the tree grows ----------

  /** The block, its key, and the branch it stands on. */
  ghost predicate Hangs(r: Rules, hist: map<Hash, Block>, b: Block) {
    && b.header.prevHash in hist
    && r.allowed(Branch(hist, b.header.prevHash), b)
    && (r.key(b) in hist ==> hist[r.key(b)] == b)
  }

  lemma NewBranch(r: Rules, hist: map<Hash, Block>, b: Block)
    requires Sound(r) && Tree(r, hist) && Hangs(r, hist, b)
    ensures var after := hist[r.key(b) := b];
            ChainTo(after, r.key(b)) == Some(Branch(hist, b.header.prevHash) + [b])
  {
    var prev, after := b.header.prevHash, hist[r.key(b) := b];
    BranchOf(r, hist, prev);
    assert Extends(r, Branch(hist, prev), b);
    ChainGrows(hist, after, prev);
  }

  lemma OldBranch(r: Rules, hist: map<Hash, Block>, b: Block, h: Hash)
    requires Tree(r, hist) && Hangs(r, hist, b) && h in hist
    ensures ChainTo(hist[r.key(b) := b], h) == ChainTo(hist, h)
  {
    BranchOf(r, hist, h);
    ChainGrows(hist, hist[r.key(b) := b], h);
  }

  lemma TreeGrows(r: Rules, hist: map<Hash, Block>, b: Block)
    requires Sound(r) && Tree(r, hist) && Hangs(r, hist, b)
    ensures Tree(r, hist[r.key(b) := b])
  {
    var after := hist[r.key(b) := b];
    forall h | h in after ensures OnTree(r, after, h) {
      if h == r.key(b) {
        NewBranch(r, hist, b);
        BranchOf(r, hist, b.header.prevHash);
        GrownExtends(r, Branch(hist, b.header.prevHash), b);
      } else {
        OldBranch(r, hist, b, h);
        BranchOf(r, hist, h);
      }
    }
  }

  // ---------- a node's view of the tree ----------

  /** The fields that fork choice works on. */
  datatype Forest = Forest(blocks: seq<Block>, all: map<Hash, Block>, work: map<Hash, nat>)

  ghost predicate Active(r: Rules, f: Forest, hist: map<Hash, Block>) {
    && Numbered(f.blocks)
    && r.key(f.blocks[|f.blocks| - 1]) in hist
    && f.blocks == Branch(hist, r.key(f.blocks[|f.blocks| - 1]))
    && r.replays(f.blocks)
    && Retained(r, f.all, f.blocks)
  }

  ghost predicate Weighed(r: Rules, f: Forest, hist: map<Hash, Block>) {
    f.work.Keys == f.all.Keys && forall h {:trigger f.work[h]} | h in f.work :: f.work[h] == Work(r, Branch(hist, h))
  }

  /** No stored block that can be replayed carries more work than the tip. */
  ghost predicate Best(r: Rules, f: Forest, hist: map<Hash, Block>) {
    forall h {:trigger Branch(hist, h)} | h in hist && r.replays(Branch(hist, h)) :: Work(r, Branch(hist, h)) <= Work(r, f.blocks)
  }

  /** Two hundred blocks below the tip and deeper, only active blocks are retained. */
  ghost predicate Settled(f: Forest) {
    forall h | h in f.all && f.all[h].height + FINALITY_DEPTH < |f.blocks| :: f.blocks[f.all[h].height] == f.all[h]
  }

  ghost predicate Consistent(r: Rules, f: Forest, hist: map<Hash, Block>) {
    Tree(r, hist) && Within(f.all, hist) && Active(r, f, hist) && Weighed(r, f, hist) && Best(r, f, hist)
  }

  function Stored(key: Block -> Hash, f: Forest, b: Block, w: nat): Forest {
    f.(all := f.all[key(b) := b], work := f.work[key(b) := w])
  }

  function Pruned(key: Block -> Hash, f: Forest): Forest {
    if |f.blocks| <= FINALITY_DEPTH then f
    else
      var cutoff := |f.blocks| - 1 - FINALITY_DEPTH;
      var active := set b | b in f.blocks && b.height <= cutoff :: key(b);
      var all := map h | h in f.all && (f.all[h].height > cutoff || h in active) :: f.all[h];
      f.(all := all, work := map h | h in f.work && h in all :: f.work[h])
  }

  /** Genesis alone. */
  function Seed(r: Rules): Forest {
    Forest([r.genesis], map[r.key(r.genesis) := r.genesis], map[r.key(r.genesis) := r.weight(r.genesis)])
  }

  lemma SeedConsistent(r: Rules)
    requires r.genesis.height == 0 && r.replays([r.genesis])
    ensures Consistent(r, Seed(r), map[r.key(r.genesis) := r.genesis]) && Settled(Seed(r))
  {
    var h, hist := r.key(r.genesis), map[r.key(r.genesis) := r.genesis];
    assert ChainTo(hist, h) == Some([r.genesis]);
    assert OnTree(r, hist, h);
    assert [r.genesis] == [] + [r.genesis];
    WorkGrows(r, [], r.genesis);
  }

  /** The new block and the branch it stands on, as `add_block` sees them once validation passed. */
  ghost predicate Accepted(r: Rules, f: Forest, hist: map<Hash, Block>, b: Block, w: nat) {
    && Hangs(r, hist, b)
    && ChainTo(f.all, b.header.prevHash).Some?
    && w == Work(r, Branch(hist, b.header.prevHash)) + r.weight(b)
  }

  lemma StoredWeight(r: Rules, f: Forest, hist: map<Hash, Block>, b: Block, w: nat, h: Hash)
    requires Sound(r) && Tree(r, hist) && Within(f.all, hist) && Weighed(r, f, hist) && Accepted(r, f, hist, b, w)
    requires h == r.key(b) || h in f.work
    ensures Stored(r.key, f, b, w).work[h] == Work(r, Branch(hist[r.key(b) := b], h))
  {
    if h == r.key(b) {
      NewBranch(r, hist, b);
      WorkGrows(r, Branch(hist, b.header.prevHash), b);
    } else {
      assert h in f.all;
      OldBranch(r, hist, b, h);
      assert f.work[h] == Work(r, Branch(hist, h));
    }
  }

  lemma StoredWeighed(r: Rules, f: Forest, hist: map<Hash, Block>, b: Block, w: nat)
    requires Sound(r) && Tree(r, hist) && Within(f.all, hist) && Weighed(r, f, hist) && Accepted(r, f, hist, b, w)
    ensures Weighed(r, Stored(r.key, f, b, w), hist[r.key(b) := b])
  {
    var m := Stored(r.key, f, b, w);
    forall h | h in m.work ensures m.work[h] == Work(r, Branch(hist[r.key(b) := b], h)) {
      StoredWeight(r, f, hist, b, w, h);
    }
  }

  lemma StoredWithin(r: Rules, f: Forest, hist: map<Hash, Block>, b: Block)
    requires Within(f.all, hist) && (r.key(b) in hist ==> hist[r.key(b)] == b)
    ensures Within(f.all, f.all[r.key(b) := b])
    ensures Within(f.all[r.key(b) := b], hist[r.key(b) := b])
  {
  }

  lemma AncestorsRetained(r: Rules, f: Forest, hist: map<Hash, Block>, h: Hash)
    requires Tree(r, hist) && Within(f.all, hist) && ChainTo(f.all, h).Some?
    ensures ChainTo(f.all, h) == ChainTo(hist, h) && Retained(r, f.all, Branch(hist, h))
  {
    KeysFile(r, hist);
    ChainGrows(f.all, hist, h);
    forall i | 0 <= i < |Branch(hist, h)| ensures r.key(Branch(hist, h)[i]) in f.all {
      ChainParts(r, f.all, h, i);
    }
  }

  /** The branch above a stored block is found by the walk: activation never misses an ancestor. */
  lemma AncestorsPresent(r: Rules, f: Forest, hist: map<Hash, Block>, b: Block, w: nat)
    requires Sound(r) && Tree(r, hist) && Within(f.all, hist) && Accepted(r, f, hist, b, w)
    ensures var chain := Branch(hist, b.header.prevHash) + [b];
            && ChainTo(Stored(r.key, f, b, w).all, r.key(b)) == Some(chain)
            && Retained(r, Stored(r.key, f, b, w).all, chain)
            && Work(r, chain) == w
  {
    var prev := b.header.prevHash;
    StoredWithin(r, f, hist, b);
    AncestorsRetained(r, f, hist, prev);
    ChainGrows(f.all, f.all[r.key(b) := b], prev);
    assert Extends(r, Branch(hist, prev), b);
    WorkGrows(r, Branch(hist, prev), b);
  }

  /** The branch of an active block is the active chain up to it. */
  lemma ActiveAt(r: Rules, f: Forest, hist: map<Hash, Block>, i: nat)
    requires Tree(r, hist) && Active(r, f, hist) && i < |f.blocks|
    ensures var h := r.key(f.blocks[i]); h in hist && hist[h] == f.blocks[i] && Branch(hist, h) == f.blocks[..i + 1]
  {
    var tip := r.key(f.blocks[|f.blocks| - 1]);
    BranchOf(r, hist, tip);
    KeysFile(r, hist);
    ChainParts(r, hist, tip, i);
  }

  /** A retained block at the settled depth is active, and so is everything below it. */
  lemma SettledBranch(r: Rules, f: Forest, hist: map<Hash, Block>, h: Hash)
    requires Tree(r, hist) && Within(f.all, hist) && Active(r, f, hist) && Settled(f)
    requires h in f.all && f.all[h].height + FINALITY_DEPTH < |f.blocks|
    ensures Branch(hist, h) == f.blocks[..f.all[h].height + 1]
  {
    ActiveAt(r, f, hist, f.all[h].height);
    KeysFile(r, hist);
  }

  /** On a prefix of the active branch, a block adds the work of the active block at its height. */
  lemma SiblingWork(r: Rules, chain: seq<Block>, b: Block, k: nat)
    requires Sound(r) && Grown(r, chain) && 1 <= k < |chain| && r.allowed(chain[..k], b)
    ensures Work(r, chain[..k]) + r.weight(b) <= Work(r, chain)
  {
    GrownAt(r, chain, k);
    assert chain[..k + 1] == chain[..k] + [chain[k]];
    WorkGrows(r, chain[..k], chain[k]);
    WorkPrefix(r, chain, k + 1);
  }

  /** A block that arrives two hundred blocks late adds no more work than the active block at its height. */
  lemma LateBlockIsLight(r: Rules, f: Forest, hist: map<Hash, Block>, b: Block, w: nat)
    requires Sound(r) && Tree(r, hist) && Within(f.all, hist) && Active(r, f, hist) && Settled(f)
    requires Accepted(r, f, hist, b, w) && b.height + FINALITY_DEPTH < |f.blocks|
    ensures w <= Work(r, f.blocks)
  {
    LateBranch(r, f, hist, b, w);
    ActiveIsGrown(r, f, hist);
    LateWork(r, f.blocks, Branch(hist, b.header.prevHash), b, w);
  }

  lemma LateBranch(r: Rules, f: Forest, hist: map<Hash, Block>, b: Block, w: nat)
    requires Sound(r) && Tree(r, hist) && Within(f.all, hist) && Active(r, f, hist) && Settled(f)
    requires Accepted(r, f, hist, b, w) && b.height + FINALITY_DEPTH < |f.blocks|
    ensures var branch := Branch(hist, b.header.prevHash);
            && 1 <= |branch| < |f.blocks| && branch == f.blocks[..|branch|] && r.allowed(branch, b)
            && w == Work(r, branch) + r.weight(b)
  {
    BranchOf(r, hist, b.header.prevHash);
    assert Extends(r, Branch(hist, b.header.prevHash), b);
    SettledBranch(r, f, hist, b.header.prevHash);
  }

  lemma ActiveIsGrown(r: Rules, f: Forest, hist: map<Hash, Block>)
    requires Tree(r, hist) && Active(r, f, hist)
    ensures Grown(r, f.blocks)
  {
    BranchOf(r, hist, r.key(f.blocks[|f.blocks| - 1]));
  }

  lemma LateWork(r: Rules, chain: seq<Block>, branch: seq<Block>, b: Block, w: nat)
    requires Sound(r) && Grown(r, chain) && 1 <= |branch| < |chain| && branch == chain[..|branch|] && r.allowed(branch, b)
    requires w == Work(r, branch) + r.weight(b)
    ensures w <= Work(r, chain)
  {
    SiblingWork(r, chain, b, |branch|);
  }

  lemma SharedBelow(r: Rules, f: Forest, hist: map<Hash, Block>, h: Hash, i: nat)
    requires Tree(r, hist) && Within(f.all, hist) && Settled(f) && Numbered(f.blocks)
    requires ChainTo(f.all, h).Some? && i < |Branch(hist, h)| && i + FINALITY_DEPTH < |f.blocks|
    ensures Branch(hist, h)[i] == f.blocks[i]
  {
    KeysFile(r, hist);
    ChainGrows(f.all, hist, h);
    ChainParts(r, f.all, h, i);
  }

  /** Bounded reorganisation: a branch heavier than the active one keeps every active block that lies at
      least two hundred blocks below the old tip. */
  lemma FinalBlocksStay(r: Rules, f: Forest, hist: map<Hash, Block>, b: Block, w: nat, i: nat)
    requires Sound(r) && Tree(r, hist) && Within(f.all, hist) && Active(r, f, hist) && Settled(f)
    requires Accepted(r, f, hist, b, w)
    requires w > Work(r, f.blocks) && i + FINALITY_DEPTH < |f.blocks|
    ensures var chain := Branch(hist, b.header.prevHash) + [b]; i < |chain| && chain[i] == f.blocks[i]
  {
    if b.height <= i {
      LateBlockIsLight(r, f, hist, b, w);
    }
    assert Extends(r, Branch(hist, b.header.prevHash), b);
    SharedBelow(r, f, hist, b.header.prevHash, i);
  }

  // ---------- what each outcome keeps ----------

  lemma StoredActive(r: Rules, f: Forest, hist: map<Hash, Block>, b: Block, w: nat)
    requires Tree(r, hist) && Active(r, f, hist) && Hangs(r, hist, b)
    ensures Active(r, Stored(r.key, f, b, w), hist[r.key(b) := b])
  {
    OldBranch(r, hist, b, r.key(f.blocks[|f.blocks| - 1]));
  }

  lemma StoredBestAt(r: Rules, hist: map<Hash, Block>, b: Block, h: Hash)
    requires Sound(r) && Tree(r, hist) && Hangs(r, hist, b) && h in hist[r.key(b) := b]
    ensures Branch(hist[r.key(b) := b], h) ==
            if h == r.key(b) then Branch(hist, b.header.prevHash) + [b] else Branch(hist, h)
  {
    if h == r.key(b) {
      NewBranch(r, hist, b);
    } else {
      OldBranch(r, hist, b, h);
    }
  }

  lemma StoredBest(r: Rules, f: Forest, hist: map<Hash, Block>, b: Block, w: nat, top: nat)
    requires Sound(r) && Tree(r, hist) && Best(r, f, hist) && Accepted(r, f, hist, b, w)
    requires Work(r, f.blocks) <= top && (r.replays(Branch(hist, b.header.prevHash) + [b]) ==> w <= top)
    ensures var after := hist[r.key(b) := b];
            forall h {:trigger Branch(after, h)} | h in after && r.replays(Branch(after, h)) :: Work(r, Branch(after, h)) <= top
  {
    var after := hist[r.key(b) := b];
    WorkGrows(r, Branch(hist, b.header.prevHash), b);
    forall h {:trigger Branch(after, h)} | h in after && r.replays(Branch(after, h)) ensures Work(r, Branch(after, h)) <= top {
      StoredBestAt(r, hist, b, h);
    }
  }

  /** Storing a block without moving the tip. */
  lemma SideBlock(r: Rules, f: Forest, hist: map<Hash, Block>, b: Block, w: nat)
    requires Sound(r) && Consistent(r, f, hist) && Accepted(r, f, hist, b, w)
    requires r.replays(Branch(hist, b.header.prevHash) + [b]) ==> w <= Work(r, f.blocks)
    ensures Consistent(r, Stored(r.key, f, b, w), hist[r.key(b) := b])
  {
    TreeGrows(r, hist, b);
    StoredWeighed(r, f, hist, b, w);
    StoredWithin(r, f, hist, b);
    StoredActive(r, f, hist, b, w);
    StoredBest(r, f, hist, b, w, Work(r, f.blocks));
  }

  /** Storing a block and making it the tip. */
  lemma NewTip(r: Rules, f: Forest, hist: map<Hash, Block>, b: Block, w: nat)
    requires Sound(r) && Consistent(r, f, hist) && Accepted(r, f, hist, b, w)
    requires w > Work(r, f.blocks) && r.replays(Branch(hist, b.header.prevHash) + [b])
    ensures Consistent(r, Stored(r.key, f, b, w).(blocks := Branch(hist, b.header.prevHash) + [b]), hist[r.key(b) := b])
  {
    TreeGrows(r, hist, b);
    StoredWeighed(r, f, hist, b, w);
    StoredWithin(r, f, hist, b);
    StoredActive(r, f, hist, b, w);
    NewBranch(r, hist, b);
    AncestorsPresent(r, f, hist, b, w);
    StoredBest(r, f, hist, b, w, w);
  }

  lemma ActiveKept(r: Rules, f: Forest, hist: map<Hash, Block>, i: nat)
    requires Tree(r, hist) && Within(f.all, hist) && Active(r, f, hist) && i < |f.blocks|
    ensures r.key(f.blocks[i]) in Pruned(r.key, f).all
  {
    assert r.key(f.blocks[i]) in f.all && f.blocks[i] in f.blocks;
    ActiveAt(r, f, hist, i);
  }

  lemma KeptIsActive(r: Rules, f: Forest, hist: map<Hash, Block>, h: Hash)
    requires Tree(r, hist) && Within(f.all, hist) && Active(r, f, hist)
    requires h in Pruned(r.key, f).all && f.all[h].height + FINALITY_DEPTH < |f.blocks|
    ensures f.blocks[f.all[h].height] == f.all[h]
  {
    var cutoff := |f.blocks| - 1 - FINALITY_DEPTH;
    var b :| b in f.blocks && b.height <= cutoff && r.key(b) == h;
    var i :| 0 <= i < |f.blocks| && f.blocks[i] == b;
    ActiveAt(r, f, hist, i);
  }

  lemma PrunedFields(r: Rules, f: Forest)
    requires f.work.Keys == f.all.Keys
    ensures var p := Pruned(r.key, f);
            && p.blocks == f.blocks && Within(p.all, f.all) && p.work.Keys == p.all.Keys
            && forall h | h in p.work :: p.work[h] == f.work[h]
  {
  }

  lemma PrunedActive(r: Rules, f: Forest, hist: map<Hash, Block>)
    requires Tree(r, hist) && Within(f.all, hist) && Active(r, f, hist)
    ensures Active(r, Pruned(r.key, f), hist) && Settled(Pruned(r.key, f))
  {
    var p := Pruned(r.key, f);
    forall i | 0 <= i < |f.blocks| ensures r.key(f.blocks[i]) in p.all {
      ActiveKept(r, f, hist, i);
    }
    forall h | h in p.all && p.all[h].height + FINALITY_DEPTH < |p.blocks| ensures p.blocks[p.all[h].height] == p.all[h] {
      KeptIsActive(r, f, hist, h);
    }
  }

  /** Pruning drops nothing active and leaves only active blocks at the settled depth. */
  lemma PruneSettles(r: Rules, f: Forest, hist: map<Hash, Block>)
    requires Consistent(r, f, hist)
    ensures Consistent(r, Pruned(r.key, f), hist) && Settled(Pruned(r.key, f))
  {
    PrunedActive(r, f, hist);
    PrunedFields(r, f);
  }

  /** A stored block that never becomes active leaves the settled depth settled. */
  lemma StuckSettled(r: Rules, f: Forest, hist: map<Hash, Block>, b: Block, w: nat)
    requires Sound(r) && Consistent(r, f, hist) && Settled(f) && Accepted(r, f, hist, b, w)
    requires w > Work(r, f.blocks)
    ensures Settled(Stored(r.key, f, b, w))
  {
    if b.height + FINALITY_DEPTH < |f.blocks| {
      LateBlockIsLight(r, f, hist, b, w);
    }
  }

  lemma ActiveIsStored(r: Rules, f: Forest, hist: map<Hash, Block>, b: Block)
    requires Tree(r, hist) && Active(r, f, hist) && b in f.blocks
    ensures b in hist.Values
  {
    var i :| 0 <= i < |f.blocks| && f.blocks[i] == b;
    ActiveAt(r, f, hist, i);
  }

  // ---------- convergence ----------

  /** Two consistent nodes with the same stored history agree on the work of the tip. */
  lemma SameTipWork(r: Rules, f: Forest, g: Forest, hist: map<Hash, Block>)
    requires Consistent(r, f, hist) && Consistent(r, g, hist)
    ensures Work(r, f.blocks) == Work(r, g.blocks)
  {
    assert Branch(hist, r.key(f.blocks[|f.blocks| - 1])) == f.blocks;
    assert Branch(hist, r.key(g.blocks[|g.blocks| - 1])) == g.blocks;
  }

  /** Among the blocks that can be replayed, only one carries the most work. */
  ghost predicate UniqueBest(r: Rules, hist: map<Hash, Block>) {
    forall h, k | h in hist && k in hist && r.replays(Branch(hist, h)) && r.replays(Branch(hist, k))
                  && Work(r, Branch(hist, h)) == Work(r, Branch(hist, k))
                  && (forall j | j in hist && r.replays(Branch(hist, j)) :: Work(r, Branch(hist, j)) <= Work(r, Branch(hist, h)))
      :: h == k
  }

  lemma SameTip(r: Rules, f: Forest, g: Forest, hist: map<Hash, Block>)
    requires Consistent(r, f, hist) && Consistent(r, g, hist) && UniqueBest(r, hist)
    ensures f.blocks == g.blocks
  {
    SameTipWork(r, f, g, hist);
    assert r.key(f.blocks[|f.blocks| - 1]) == r.key(g.blocks[|g.blocks| - 1]);
  }
}
