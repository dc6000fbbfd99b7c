/** The guarantees of a node over all its runs: fork choice, bounded reorganisation, caches that equal a
    replay, convergence, the supply cap and freedom from double spends. */
module Guarantees {
  import opened Basics
  import opened Transactions
  import opened Ledger
  import opened Emission
  import opened Blocks
  import opened Supply
  import opened DoubleSpend
  import opened BlockTree
  import opened Nodes
  import opened Invariant
  import opened Runs

  // ---------- one step from a state that satisfies the invariant ----------

  lemma RebuildOutcome(c: Crypto, n: Node, chain: seq<Block>)
    ensures Replay(c, chain).None? ==>
            Rebuild(c, n, chain) == Step(n.(pool := Rebuild(c, n, chain).node.pool), Err(MintedOverflow))
    ensures Replay(c, chain).Some? ==>
            Rebuild(c, n, chain).result == Ok(()) && Rebuild(c, n, chain).node.blocks == chain
  {
  }

  lemma PruneTouches(c: Crypto, n: Node)
    ensures Prune(c, n).blocks == n.blocks && Prune(c, n).index == n.index
    ensures Prune(c, n).utxo == n.utxo && Prune(c, n).minted == n.minted && Prune(c, n).pool == n.pool
  {
  }

  /** The active chain and its caches are untouched. */
  predicate SameActive(a: Node, b: Node) {
    a.blocks == b.blocks && a.index == b.index && a.utxo == b.utxo && a.minted == b.minted
  }

  /** What a validated block does to the active chain: nothing unless its branch is strictly heavier; then its
      branch becomes the active chain, unless the minted total of that branch leaves u64. */
  lemma AdmitMoves(c: Crypto, g: Block, n: Node, hist: map<Hash, Block>, b: Block, w: nat)
    requires Inv(c, g, n, hist) && Accepted(RulesOf(c, n.magic, g), n.Forest(), hist, b, w) && BlockHash(c, b) !in n.all
    ensures var r, chain, s := RulesOf(c, n.magic, g), Branch(hist, b.header.prevHash) + [b], Admit(c, n, b, w);
            && (w <= Work(r, n.blocks) ==> s.result == Ok(()) && SameActive(s.node, n))
            && (w > Work(r, n.blocks) && Replay(c, chain).Some? ==> s.result == Ok(()) && s.node.blocks == chain)
            && (w > Work(r, n.blocks) && Replay(c, chain).None? ==> s.result == Err(MintedOverflow) && SameActive(s.node, n))
  {
    var m, chain := Store(c, n, b, w), Branch(hist, b.header.prevHash) + [b];
    AdmitByWork(c, g, n, hist, b, w);
    RebuildOutcome(c, m, chain);
    PruneTouches(c, m);
    PruneTouches(c, Rebuild(c, m, chain).node);
  }

  /** Fork choice, one delivery at a time. */
  lemma ForkChoiceStep(c: Crypto, g: Block, n: Node, hist: map<Hash, Block>, b: Block, now: nat, s: set<Block>)
    requires Inv(c, g, n, hist) && NoCollisions(c, s) && hist.Values <= s && b in s
    ensures var r, after := RulesOf(c, n.magic, g), AddBlock(c, n, b, now);
            && Work(r, n.blocks) <= Work(r, after.node.blocks)
            && (after.node.blocks != n.blocks ==> Work(r, n.blocks) < Work(r, after.node.blocks))
            && (after.result.Err? ==> SameActive(after.node, n))
            && (BlockHash(c, b) in n.all || Check(c, n, b, now).Err? ==> after.node == n)
            && (BlockHash(c, b) in n.all ==> after.result == Ok(()))
            && (BlockHash(c, b) !in n.all && Check(c, n, b, now).Err? ==> after.result.Err?)
            && (Check(c, n, b, now).Ok? && after.result.Err? ==> after.result == Err(MintedOverflow))
  {
    var r := RulesOf(c, n.magic, g);
    if BlockHash(c, b) in n.all || Check(c, n, b, now).Err? {
      Refused(c, n, hist, b, now);
      RefusedResult(c, n, b, now);
    } else {
      var w := Check(c, n, b, now).value;
      PassesToTree(c, g, n, hist, b, now, s);
      Passed(c, n, hist, b, now);
      AdmitMoves(c, g, n, hist, b, w);
      WorkGrows(r, Branch(hist, b.header.prevHash), b);
    }
  }

  lemma RefusedResult(c: Crypto, n: Node, b: Block, now: nat)
    requires Numbered(n.blocks)
    ensures BlockHash(c, b) in n.all ==> AddBlock(c, n, b, now).result == Ok(())
    ensures BlockHash(c, b) !in n.all && Check(c, n, b, now).Err? ==> AddBlock(c, n, b, now).result.Err?
  {
  }

  lemma ReorgStep(c: Crypto, g: Block, n: Node, hist: map<Hash, Block>, b: Block, now: nat, s: set<Block>, i: nat)
    requires Inv(c, g, n, hist) && NoCollisions(c, s) && hist.Values <= s && b in s
    requires i + FINALITY_DEPTH < |n.blocks|
    ensures var m := AddBlock(c, n, b, now).node; i < |m.blocks| && m.blocks[i] == n.blocks[i]
  {
    if BlockHash(c, b) in n.all || Check(c, n, b, now).Err? {
      Refused(c, n, hist, b, now);
    } else {
      var w := Check(c, n, b, now).value;
      PassesToTree(c, g, n, hist, b, now, s);
      Passed(c, n, hist, b, now);
      AdmitKeepsFinal(c, g, n, hist, b, w, i);
    }
  }

  lemma AdmitKeepsFinal(c: Crypto, g: Block, n: Node, hist: map<Hash, Block>, b: Block, w: nat, i: nat)
    requires Inv(c, g, n, hist) && Accepted(RulesOf(c, n.magic, g), n.Forest(), hist, b, w) && BlockHash(c, b) !in n.all
    requires i + FINALITY_DEPTH < |n.blocks|
    ensures var m := Admit(c, n, b, w).node; i < |m.blocks| && m.blocks[i] == n.blocks[i]
  {
    var r := RulesOf(c, n.magic, g);
    AdmitMoves(c, g, n, hist, b, w);
    if w > Work(r, n.blocks) {
      RulesAreSound(c, n.magic, g);
      FinalBlocksStay(r, n.Forest(), hist, b, w, i);
    }
  }

  // ---------- what a delivery retains ----------

  ghost predicate KeepsRecent(m: Node, stored: map<Hash, Block>) {
    forall h | h in stored && stored[h].height + FINALITY_DEPTH >= |m.blocks| :: h in m.all
  }

  lemma PruneRetains(c: Crypto, n: Node)
    ensures Within(Prune(c, n).all, n.all)
    ensures forall h | h in n.all && n.all[h].height + FINALITY_DEPTH >= |n.blocks| :: h in Prune(c, n).all
  {
  }

  lemma ActivateTouches(c: Crypto, n: Node, h: Hash)
    ensures Activate(c, n, h).node.all == n.all
  {
  }

  lemma AdmitRetains(c: Crypto, n: Node, b: Block, w: nat)
    requires Numbered(n.blocks)
    ensures var m, stored := Admit(c, n, b, w).node, n.all[BlockHash(c, b) := b];
            Within(m.all, stored) && KeepsRecent(m, stored)
  {
    var m := Store(c, n, b, w);
    AdmitOutcome(c, n, b, w, m);
    ActivateTouches(c, m, BlockHash(c, b));
    PruneRetains(c, m);
    PruneRetains(c, Activate(c, m, BlockHash(c, b)).node);
  }

  lemma DeliveryRetains(c: Crypto, n: Node, b: Block, now: nat)
    requires Numbered(n.blocks)
    ensures var m, stored := AddBlock(c, n, b, now).node, Grow(c, n, n.all, b, now);
            Within(m.all, stored) && KeepsRecent(m, stored)
  {
    if BlockHash(c, b) in n.all || Check(c, n, b, now).Err? {
      Refused(c, n, n.all, b, now);
    } else {
      Passed(c, n, n.all, b, now);
      AdmitRetains(c, n, b, Check(c, n, b, now).value);
    }
  }

  lemma SettledActive(r: Rules, f: Forest, hist: map<Hash, Block>, b: Block, h: Hash)
    requires Tree(r, hist) && Active(r, f, hist) && h in hist && hist[h] == b && b.height < |f.blocks| && f.blocks[b.height] == b
    ensures h in f.all
  {
    KeysFile(r, hist);
    assert r.key(f.blocks[b.height]) in f.all;
  }

  /** A block is retained if it lies at most two hundred blocks below the tip or is active, and else it is not. */
  predicate Keeps(blocks: seq<Block>, b: Block) {
    b.height + 200 >= |blocks| || blocks[b.height] == b
  }

  lemma RetainedHere(c: Crypto, g: Block, n: Node, hist: map<Hash, Block>, b: Block, now: nat, s: set<Block>, h: Hash)
    requires Inv(c, g, n, hist) && NoCollisions(c, s) && hist.Values <= s && b in s
    ensures var m, stored := AddBlock(c, n, b, now).node, Grow(c, n, n.all, b, now);
            && (h in m.all <==> h in stored && Keeps(m.blocks, stored[h]))
            && (h in m.all ==> m.all[h] == stored[h])
  {
    DeliveryKeeps(c, g, n, hist, b, now, s);
    DeliveryRetains(c, n, b, now);
    GrowWithin(c, n, hist, b, now);
    RetainedIn(c, g, AddBlock(c, n, b, now).node, Grow(c, n, hist, b, now), Grow(c, n, n.all, b, now), h);
  }

  lemma RetainedIn(c: Crypto, g: Block, m: Node, hist: map<Hash, Block>, stored: map<Hash, Block>, h: Hash)
    requires Inv(c, g, m, hist) && Within(m.all, stored) && Within(stored, hist) && KeepsRecent(m, stored)
    ensures h in m.all <==> h in stored && Keeps(m.blocks, stored[h])
    ensures h in m.all ==> m.all[h] == stored[h]
  {
    RetainedWhen(RulesOf(c, m.magic, g), m.Forest(), hist, stored, h);
  }

  lemma GrowWithin(c: Crypto, n: Node, hist: map<Hash, Block>, b: Block, now: nat)
    requires Numbered(n.blocks) && Within(n.all, hist)
    ensures Within(Grow(c, n, n.all, b, now), Grow(c, n, hist, b, now))
  {
  }

  lemma RetainedWhen(r: Rules, f: Forest, hist: map<Hash, Block>, stored: map<Hash, Block>, h: Hash)
    requires Tree(r, hist) && Active(r, f, hist) && Settled(f) && Within(f.all, stored) && Within(stored, hist)
    requires forall x | x in stored && stored[x].height + FINALITY_DEPTH >= |f.blocks| :: x in f.all
    ensures h in f.all <==> h in stored && Keeps(f.blocks, stored[h])
    ensures h in f.all ==> f.all[h] == stored[h]
  {
    if h in stored && stored[h].height + 200 < |f.blocks| && f.blocks[stored[h].height] == stored[h] {
      SettledActive(r, f, hist, stored[h], h);
    }
  }

  // ---------- every run ----------

  lemma AllSeenBefore(g: Block, events: seq<Event>, e: Event)
    ensures forall i | 0 <= i < |events| :: SeenAt(events[i], Seen(g, events + [e]))
    ensures SeenAt(e, Seen(g, events + [e]))
  {
    var longer := events + [e];
    AllSeen(g, longer);
    forall i | 0 <= i < |events| ensures SeenAt(events[i], Seen(g, longer)) { assert longer[i] == events[i]; }
    assert longer[|events|] == e;
  }

  lemma BeforeDelivery(c: Crypto, magic: U32, g: Block, events: seq<Event>, b: Block, now: nat)
    requires IsGenesis(c, g) && NoCollisions(c, Seen(g, events + [Deliver(b, now)]))
    ensures var s := Seen(g, events + [Deliver(b, now)]);
            && Inv(c, g, Run(c, magic, g, events), Hist(c, magic, g, events))
            && Hist(c, magic, g, events).Values <= s && b in s
  {
    AllSeenBefore(g, events, Deliver(b, now));
    ReachableWithin(c, magic, g, events, Seen(g, events + [Deliver(b, now)]));
  }

  /** Fork choice in every run: a delivery never lowers the work of the tip, moves the tip only to strictly more
      work, leaves the active chain and its caches alone when it fails, and leaves the whole state alone when
      validation fails; once validation passed, only an overflow of the minted total can still fail. */
  lemma ForkChoice(c: Crypto, magic: U32, g: Block, events: seq<Event>, b: Block, now: nat)
    requires IsGenesis(c, g) && NoCollisions(c, Seen(g, events + [Deliver(b, now)]))
    ensures var r, n := RulesOf(c, magic, g), Run(c, magic, g, events);
            var after := AddBlock(c, n, b, now);
            && Work(r, n.blocks) <= Work(r, after.node.blocks)
            && (after.node.blocks != n.blocks ==> Work(r, n.blocks) < Work(r, after.node.blocks))
            && (after.result.Err? ==> SameActive(after.node, n))
            && (BlockHash(c, b) in n.all || Check(c, n, b, now).Err? ==> after.node == n)
            && (BlockHash(c, b) in n.all ==> after.result == Ok(()))
            && (BlockHash(c, b) !in n.all && Check(c, n, b, now).Err? ==> after.result.Err?)
            && (Check(c, n, b, now).Ok? && after.result.Err? ==> after.result == Err(MintedOverflow))
  {
    BeforeDelivery(c, magic, g, events, b, now);
    ForkChoiceStep(c, g, Run(c, magic, g, events), Hist(c, magic, g, events), b, now, Seen(g, events + [Deliver(b, now)]));
  }

  /** Reorganisations are bounded: no delivery, in any run, replaces an active block that lies two hundred or
      more blocks below the tip. */
  lemma BoundedReorganisation(c: Crypto, magic: U32, g: Block, events: seq<Event>, b: Block, now: nat, i: nat)
    requires IsGenesis(c, g) && NoCollisions(c, Seen(g, events + [Deliver(b, now)]))
    requires i + FINALITY_DEPTH < |Run(c, magic, g, events).blocks|
    ensures var n, m := Run(c, magic, g, events), AddBlock(c, Run(c, magic, g, events), b, now).node;
            i < |m.blocks| && m.blocks[i] == n.blocks[i]
  {
    BeforeDelivery(c, magic, g, events, b, now);
    ReorgStep(c, g, Run(c, magic, g, events), Hist(c, magic, g, events), b, now, Seen(g, events + [Deliver(b, now)]), i);
  }

  /** Retention, exactly: after any delivery in any run, the node holds precisely those blocks, old or just passed, that lie
      at most two hundred blocks below the tip or are active. */
  lemma RetainedExactly(c: Crypto, magic: U32, g: Block, events: seq<Event>, b: Block, now: nat, h: Hash)
    requires IsGenesis(c, g) && NoCollisions(c, Seen(g, events + [Deliver(b, now)]))
    ensures var n := Run(c, magic, g, events);
            var m, stored := AddBlock(c, n, b, now).node, Grow(c, n, n.all, b, now);
            && (h in m.all <==> h in stored && Keeps(m.blocks, stored[h]))
            && (h in m.all ==> m.all[h] == stored[h])
  {
    BeforeDelivery(c, magic, g, events, b, now);
    RetainedHere(c, g, Run(c, magic, g, events), Hist(c, magic, g, events), b, now, Seen(g, events + [Deliver(b, now)]), h);
  }

  /** The entry of `h` is the sum of work over its branch, that of the tip the sum over the active chain, and unless the
      branch of `h` does not replay, it is not more than the tip's. */
  ghost predicate Outweighed(r: Rules, f: Forest, hist: map<Hash, Block>, h: Hash)
    requires f.blocks != []
  {
    var tip := r.key(f.blocks[|f.blocks| - 1]);
    && h in f.work && f.work[h] == Work(r, Branch(hist, h)) && tip in f.work && f.work[tip] == Work(r, f.blocks)
    && (r.replays(Branch(hist, h)) ==> f.work[h] <= f.work[tip])
  }

  /** The work map holds ancestor sums, and no retained block that can be replayed outweighs the tip. */
  lemma TipIsHeaviest(c: Crypto, magic: U32, g: Block, events: seq<Event>, h: Hash)
    requires IsGenesis(c, g) && NoCollisions(c, Seen(g, events)) && h in Run(c, magic, g, events).all
    ensures Outweighed(RulesOf(c, magic, g), Run(c, magic, g, events).Forest(), Hist(c, magic, g, events), h)
  {
    Reachable(c, magic, g, events);
    Heaviest(RulesOf(c, magic, g), Run(c, magic, g, events).Forest(), Hist(c, magic, g, events), h);
  }

  lemma Heaviest(r: Rules, f: Forest, hist: map<Hash, Block>, h: Hash)
    requires Consistent(r, f, hist) && h in f.all
    ensures Outweighed(r, f, hist, h)
  {
    assert r.key(f.blocks[|f.blocks| - 1]) in f.all;
    assert f.work[h] == Work(r, Branch(hist, h));
  }

  // ---------- caches ----------

  ghost predicate Inverts(key: Block -> Hash, chain: seq<Block>, index: map<Hash, nat>) {
    && (forall i | 0 <= i < |chain| :: key(chain[i]) in index && index[key(chain[i])] == i)
    && (forall h | h in index :: index[h] < |chain| && key(chain[index[h]]) == h)
  }

  lemma {:induction false} IndexInverts(key: Block -> Hash, chain: seq<Block>)
    requires forall i, j | 0 <= i < j < |chain| :: key(chain[i]) != key(chain[j])
    ensures Inverts(key, chain, IndexOf(key, chain))
  {
    if chain != [] {
      IndexInverts(key, chain[..|chain| - 1]);
    }
  }

  lemma ActiveHashesDiffer(r: Rules, f: Forest, hist: map<Hash, Block>, i: nat, j: nat)
    requires Tree(r, hist) && Active(r, f, hist) && i < j < |f.blocks|
    ensures r.key(f.blocks[i]) != r.key(f.blocks[j])
  {
    ActiveAt(r, f, hist, i);
    ActiveAt(r, f, hist, j);
  }

  lemma InvIndexInverts(c: Crypto, g: Block, n: Node, hist: map<Hash, Block>)
    requires Inv(c, g, n, hist)
    ensures Inverts(KeyOf(c), n.blocks, n.index)
  {
    forall i, j | 0 <= i < j < |n.blocks| ensures KeyOf(c)(n.blocks[i]) != KeyOf(c)(n.blocks[j]) {
      ActiveHashesDiffer(RulesOf(c, n.magic, g), n.Forest(), hist, i, j);
    }
    IndexInverts(KeyOf(c), n.blocks);
  }

  /** In every reachable state the active chain is the walk from its tip, the index inverts it, and the cached
      outputs and minted total are those of a replay from genesis; so the shortcut for blocks on the active
      tip hands out, for every parent, exactly what the walk and replay would. */
  lemma CacheRefinesReplay(c: Crypto, magic: U32, g: Block, events: seq<Event>, parent: Hash)
    requires IsGenesis(c, g) && NoCollisions(c, Seen(g, events))
    ensures var n := Run(c, magic, g, events);
            && ChainTo(n.all, TipHash(c, n)) == Some(n.blocks)
            && Inverts(KeyOf(c), n.blocks, n.index)
            && Replay(c, n.blocks) == Some(Replayed(n.utxo, n.minted))
            && ParentContext(c, n, parent) == ReplayContext(c, n.all, parent)
  {
    var n, hist := Run(c, magic, g, events), Hist(c, magic, g, events);
    Reachable(c, magic, g, events);
    TipWalk(c, g, n, hist);
    InvIndexInverts(c, g, n, hist);
    FastIsSlow(c, g, n, hist, parent);
  }

  lemma TipWalk(c: Crypto, g: Block, n: Node, hist: map<Hash, Block>)
    requires Inv(c, g, n, hist)
    ensures ChainTo(n.all, TipHash(c, n)) == Some(n.blocks)
  {
    TipIsFound(RulesOf(c, n.magic, g), n.Forest(), hist);
  }

  lemma SameWork(c: Crypto, g: Block, n: Node, m: Node, histN: map<Hash, Block>, histM: map<Hash, Block>, parent: Hash)
    requires Inv(c, g, n, histN) && Inv(c, g, m, histM) && n.magic == m.magic
    requires ChainTo(n.all, parent).Some? && ChainTo(n.all, parent) == ChainTo(m.all, parent)
    ensures Lookup(n.work, parent) == Lookup(m.work, parent) && Lookup(n.all, parent) == Lookup(m.all, parent)
  {
    var r := RulesOf(c, n.magic, g);
    ForestFacts(r, n.Forest(), histN, parent);
    ForestFacts(r, m.Forest(), histM, parent);
  }

  /** Two nodes that retain the same branch pass the same verdict on a block above it, error included, whatever
      else they store and whichever branches they have active. */
  lemma SameVerdict(c: Crypto, magic: U32, g: Block, eventsA: seq<Event>, eventsB: seq<Event>, b: Block, now: nat)
    requires IsGenesis(c, g) && NoCollisions(c, Seen(g, eventsA)) && NoCollisions(c, Seen(g, eventsB))
    requires var p, a, d := b.header.prevHash, Run(c, magic, g, eventsA), Run(c, magic, g, eventsB);
             ChainTo(a.all, p).Some? && ChainTo(a.all, p) == ChainTo(d.all, p)
    ensures Check(c, Run(c, magic, g, eventsA), b, now) == Check(c, Run(c, magic, g, eventsB), b, now)
  {
    Reachable(c, magic, g, eventsA);
    Reachable(c, magic, g, eventsB);
    SameVerdictHere(c, g, Run(c, magic, g, eventsA), Run(c, magic, g, eventsB),
                    Hist(c, magic, g, eventsA), Hist(c, magic, g, eventsB), b, now);
  }

  lemma SlowCheck(c: Crypto, g: Block, n: Node, hist: map<Hash, Block>, b: Block, now: nat)
    requires Inv(c, g, n, hist)
    ensures var p := b.header.prevHash;
            Check(c, n, b, now) == CheckIn(c, n.magic, Lookup(n.all, p), Lookup(n.work, p), ReplayContext(c, n.all, p), b, now)
  {
    FastIsSlow(c, g, n, hist, b.header.prevHash);
  }

  lemma SameVerdictHere(c: Crypto, g: Block, n: Node, m: Node, histN: map<Hash, Block>, histM: map<Hash, Block>,
          b: Block, now: nat)
    requires Inv(c, g, n, histN) && Inv(c, g, m, histM) && n.magic == m.magic
    requires ChainTo(n.all, b.header.prevHash).Some? && ChainTo(n.all, b.header.prevHash) == ChainTo(m.all, b.header.prevHash)
    ensures Check(c, n, b, now) == Check(c, m, b, now)
  {
    SlowCheck(c, g, n, histN, b, now);
    SlowCheck(c, g, m, histM, b, now);
    SameWork(c, g, n, m, histN, histM, b.header.prevHash);
    SameReplay(c, n.all, m.all, b.header.prevHash);
  }

  lemma SameReplay(c: Crypto, a: map<Hash, Block>, b: map<Hash, Block>, h: Hash)
    requires ChainTo(a, h) == ChainTo(b, h)
    ensures ReplayContext(c, a, h) == ReplayContext(c, b, h)
  {
  }

  // ---------- convergence ----------

  lemma HistoryFromBlocks(r: Rules, a: map<Hash, Block>, b: map<Hash, Block>)
    requires Tree(r, a) && Tree(r, b) && a.Values == b.Values
    ensures a == b
  {
    KeysFile(r, a);
    KeysFile(r, b);
    forall h | h in a ensures h in b && b[h] == a[h] { assert a[h] in b.Values; }
    forall h | h in b ensures h in a { assert b[h] in a.Values; }
  }

  lemma SameCaches(c: Crypto, n: Node, m: Node)
    requires Cached(c, n) && Cached(c, m) && n.blocks == m.blocks
    ensures SameActive(n, m)
  {
  }

  lemma ConvergeHere(c: Crypto, g: Block, n: Node, m: Node, histN: map<Hash, Block>, histM: map<Hash, Block>)
    requires Inv(c, g, n, histN) && Inv(c, g, m, histM) && n.magic == m.magic && histN.Values == histM.Values
    ensures Work(RulesOf(c, n.magic, g), n.blocks) == Work(RulesOf(c, n.magic, g), m.blocks)
    ensures UniqueBest(RulesOf(c, n.magic, g), histN) ==> SameActive(n, m)
  {
    var r := RulesOf(c, n.magic, g);
    HistoryFromBlocks(r, histN, histM);
    SameTipWork(r, n.Forest(), m.Forest(), histN);
    if UniqueBest(r, histN) {
      SameTip(r, n.Forest(), m.Forest(), histN);
      SameCaches(c, n, m);
    }
  }

  /** Convergence: two nodes that start from one genesis and store the same set of blocks, in whatever order and
      with whatever clocks and transactions between, have tips of equal work; and if one block alone carries the most
      work, they have the same active chain, index, unspent outputs and minted total. */
  lemma Convergence(c: Crypto, magic: U32, g: Block, eventsA: seq<Event>, eventsB: seq<Event>)
    requires IsGenesis(c, g) && NoCollisions(c, Seen(g, eventsA)) && NoCollisions(c, Seen(g, eventsB))
    requires Hist(c, magic, g, eventsA).Values == Hist(c, magic, g, eventsB).Values
    ensures var r, a, b := RulesOf(c, magic, g), Run(c, magic, g, eventsA), Run(c, magic, g, eventsB);
            && Work(r, a.blocks) == Work(r, b.blocks)
            && (UniqueBest(r, Hist(c, magic, g, eventsA)) ==> SameActive(a, b))
  {
    Reachable(c, magic, g, eventsA);
    Reachable(c, magic, g, eventsB);
    ConvergeHere(c, g, Run(c, magic, g, eventsA), Run(c, magic, g, eventsB), Hist(c, magic, g, eventsA), Hist(c, magic, g, eventsB));
  }

  // ---------- value ----------

  lemma BranchIsLawful(c: Crypto, g: Block, n: Node, hist: map<Hash, Block>, h: Hash)
    requires Inv(c, g, n, hist) && h in hist
    ensures LawfulChain(c, n.magic, Branch(hist, h))
  {
    BranchOf(RulesOf(c, n.magic, g), hist, h);
  }

  lemma ActiveIsLawful(c: Crypto, g: Block, n: Node, hist: map<Hash, Block>)
    requires Inv(c, g, n, hist)
    ensures LawfulChain(c, n.magic, n.blocks)
  {
    BranchIsLawful(c, g, n, hist, TipHash(c, n));
  }

  /** The supply cap in every run: with distinct inputs in every transaction and no txid collision on the active
      chain, all unspent outputs together are worth at most what was minted, and at most what the schedule has
      emitted by the height of the tip, which is below the cap, although the minted total counts recycled fees again. */
  lemma SupplyCapInEveryRun(c: Crypto, magic: U32, g: Block, events: seq<Event>)
    requires IsGenesis(c, g) && NoCollisions(c, Seen(g, events))
    requires var txs := TxsOf(Run(c, magic, g, events).blocks); TxidsDiffer(c, txs) && AllDistinct(txs)
    ensures var n := Run(c, magic, g, events);
            Total(n.utxo.outs) <= n.minted && Total(n.utxo.outs) <= Emitted(|n.blocks|) < 31_415_925_999_111_456 < MAX_SUPPLY
  {
    var n := Run(c, magic, g, events);
    Reachable(c, magic, g, events);
    ActiveIsLawful(c, g, n, Hist(c, magic, g, events));
    SupplyCap(c, magic, n.blocks);
  }

  /** No double spend on any branch a node ever stored, active or not. */
  lemma NoDoubleSpendInEveryRun(c: Crypto, magic: U32, g: Block, events: seq<Event>, h: Hash, p: nat, q: nat)
    requires IsGenesis(c, g) && NoCollisions(c, Seen(g, events)) && h in Hist(c, magic, g, events)
    requires var chain := Branch(Hist(c, magic, g, events), h);
             CoinbasesDiffer(chain) && TxidsDiffer(c, TxsOf(chain)) && p < q < |Flatten(chain)|
    ensures var txs := Flatten(Branch(Hist(c, magic, g, events), h)); UsedBy(txs[p]) !! UsedBy(txs[q])
  {
    Reachable(c, magic, g, events);
    BranchIsLawful(c, g, Run(c, magic, g, events), Hist(c, magic, g, events), h);
    NoDoubleSpend(c, magic, Branch(Hist(c, magic, g, events), h), p, q);
  }

  /** On every branch ever stored, every later transaction of a block spends outputs made in earlier blocks of
      that branch, and is not a coinbase. */
  lemma SpendsWhatWasMade(c: Crypto, magic: U32, g: Block, events: seq<Event>, h: Hash, i: nat, j: nat)
    requires IsGenesis(c, g) && NoCollisions(c, Seen(g, events)) && h in Hist(c, magic, g, events)
    requires var chain := Branch(Hist(c, magic, g, events), h); 1 <= i < |chain| && 1 <= j < |chain[i].transactions|
    ensures var chain := Branch(Hist(c, magic, g, events), h);
            SpentSet(chain[i].transactions[j].inputs) <= Made(c, Flatten(chain[..i])) && !IsCoinbase(chain[i].transactions[j])
  {
    var chain := Branch(Hist(c, magic, g, events), h);
    Reachable(c, magic, g, events);
    BranchIsLawful(c, g, Run(c, magic, g, events), Hist(c, magic, g, events), h);
    SpendsEarlierBlocks(c, magic, chain, i, j);
    OnlyFirstIsCoinbase(c, magic, chain, i, j);
  }
}
