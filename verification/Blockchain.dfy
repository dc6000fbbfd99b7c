/** The pool as it is updated in place (`Mempool` of src/transaction/mempool.rs). */
module PoolStore {
  import opened Basics
  import opened Transactions
  import Pools

  class Mempool {
    var txs: map<Hash, Transaction>
    var fees: map<Hash, nat>
    var totalBytes: nat

    function View(): Pools.Pool
      reads this
    {
      Pools.Pool(txs, fees, totalBytes)
    }

    constructor ()
      ensures View() == Pools.EMPTY_POOL
    {
      txs, fees, totalBytes := map[], map[], 0;
    }

    method AddWithFee(c: Crypto, tx: Transaction, fee: nat) returns (r: Result<Hash>)
      modifies this
      ensures Pools.Admission(View(), r) == Pools.AddWithFee(c, old(View()), tx, fee)
    {
      if fee < Pools.MIN_FEE { return Err(FeeTooLow); }
      var size := TxSize(c, tx);
      if totalBytes + size > Pools.MAX_MEMPOOL_BYTES { return Err(MempoolFull); }
      var txid := Txid(c, tx);
      var isNew := txid !in txs;
      txs := txs[txid := tx];
      if isNew {
        totalBytes := totalBytes + size;
        fees := fees[txid := fee];
      }
      r := Ok(txid);
    }

    method Offer(c: Crypto, tx: Transaction, fee: Result<nat>) returns (r: Result<Hash>)
      modifies this
      ensures Pools.Admission(View(), r) == Pools.Offer(c, old(View()), tx, fee)
    {
      if fee.Err? { return Err(fee.error); }
      r := AddWithFee(c, tx, fee.value);
    }

    method Remove(c: Crypto, txid: Hash)
      modifies this
      ensures View() == Pools.Remove(c, old(View()), txid)
    {
      if txid in txs {
        var tx := txs[txid];
        txs := txs - {txid};
        totalBytes := SatSub(totalBytes, TxSize(c, tx));
        fees := fees - {txid};
      }
    }
  }
}

/** Validation loops over the transactions of a block (src/blockchain/chain.rs). */
module BlockValidation {
  import opened Basics
  import opened Transactions
  import opened Ledger
  import opened UtxoStore
  import opened Timestamps
  import opened Emission
  import opened Blocks

  lemma {:induction false} FeesFailEarly(c: Crypto, u: Utxos, txs: seq<Transaction>, magic: U32, height: nat, k: nat)
    requires k <= |txs|
    ensures TotalFees(c, u, txs[..k], magic, height).Err? ==>
            TotalFees(c, u, txs, magic, height) == TotalFees(c, u, txs[..k], magic, height)
    decreases |txs|
  {
    if k < |txs| {
      FeesFailEarly(c, u, txs[..|txs| - 1], magic, height, k);
      assert txs[..|txs| - 1][..k] == txs[..k];
    } else {
      assert txs[..k] == txs;
    }
  }

  method SumFees(c: Crypto, u: Utxos, txs: seq<Transaction>, magic: U32, height: nat) returns (r: Result<nat>)
    ensures r == TotalFees(c, u, txs, magic, height)
  {
    r := Ok(0);
    for i := 0 to |txs|
      invariant r.Ok? && r == TotalFees(c, u, txs[..i], magic, height)
    {
      var fee := ValidateTransaction(c, u, txs[i], magic, height);
      FeesNext(c, u, txs, magic, height, i);
      r := AddFee(r, fee);
      if r.Err? {
        FeesFailEarly(c, u, txs, magic, height, i + 1);
        return;
      }
    }
    assert txs[..|txs|] == txs;
  }

  lemma FeesNext(c: Crypto, u: Utxos, txs: seq<Transaction>, magic: U32, height: nat, i: nat)
    requires i < |txs|
    ensures TotalFees(c, u, txs[..i + 1], magic, height) ==
            AddFee(TotalFees(c, u, txs[..i], magic, height), ValidateTx(c, u, txs[i], magic, height))
  {
    assert txs[..i + 1][..i] == txs[..i];
  }

  method CountOps(txs: seq<Transaction>) returns (n: nat)
    ensures n == UtxoOps(txs)
  {
    n := 0;
    for i := 0 to |txs|
      invariant n == UtxoOps(txs[..i])
    {
      assert txs[..i + 1][..i] == txs[..i];
      n := n + |txs[i].inputs| + |txs[i].outputs|;
    }
    assert txs[..|txs|] == txs;
  }

  /** `Block::validate`. */
  method ValidateBlock(c: Crypto, b: Block, prevHash: Hash) returns (r: Result<()>)
    ensures r == ValidateStructure(c, b, prevHash)
  {
    if b.header.prevHash != prevHash { return Err(PrevHashMismatch); }
    var solved := CheckTarget(c, b.header);
    if !solved { return Err(TargetMissed); }
    if b.transactions == [] { return Err(NoTransactions); }
    if |b.transactions| > MAX_BLOCK_TRANSACTIONS { return Err(TooManyTransactions); }
    if BlockBytes(c, b) > MAX_BLOCK_BYTES { return Err(TooManyBytes); }
    var ops := CountOps(b.transactions);
    if ops > MAX_BLOCK_UTXO_OPS { return Err(TooManyUtxoOps); }
    if !IsCoinbase(b.transactions[0]) { return Err(FirstNotCoinbase); }
    if MerkleRoot(c, b.transactions) != b.header.merkleRoot { return Err(MerkleMismatch); }
    r := Ok(());
  }

  /** `validate_coinbase_subsidy_with_state`. */
  method ValidateSubsidy(c: Crypto, magic: U32, ledger: Replayed, b: Block) returns (r: Result<()>)
    requires b.transactions != []
    ensures r == CheckSubsidy(c, magic, ledger, b)
  {
    if |b.transactions[0].outputs| > MAX_COINBASE_OUTPUTS { return Err(TooManyCoinbaseOutputs); }
    var fees := SumFees(c, ledger.utxo, b.transactions[1..], magic, b.height);
    if fees.Err? { return Err(fees.error); }
    var allowed := SatAdd(Min(BlockReward(b.height), SatSub(MAX_SUPPLY, ledger.minted)), fees.value);
    if CoinbaseValue(b) > allowed { return Err(ExcessiveCoinbase); }
    r := Ok(());
  }

  lemma {:induction false} OrderFailsEarly(c: Crypto, u: Utxos, txs: seq<Transaction>, magic: U32, height: nat, k: nat)
    requires k <= |txs|
    ensures CheckInOrder(c, u, txs[..k], magic, height).Err? ==>
            CheckInOrder(c, u, txs, magic, height) == CheckInOrder(c, u, txs[..k], magic, height)
    decreases |txs|
  {
    if k < |txs| {
      OrderFailsEarly(c, u, txs[..|txs| - 1], magic, height, k);
      assert txs[..|txs| - 1][..k] == txs[..k];
    } else {
      assert txs[..k] == txs;
    }
  }

  /** The loop over the later transactions of a block, on a private copy of the branch's outputs. */
  method ValidateInOrder(c: Crypto, u: Utxos, txs: seq<Transaction>, magic: U32, height: nat) returns (r: Result<Utxos>)
    ensures r == CheckInOrder(c, u, txs, magic, height)
  {
    var branch := new UtxoSet.Copy(u);
    for i := 0 to |txs|
      invariant fresh(branch)
      invariant CheckInOrder(c, u, txs[..i], magic, height) == Ok(branch.View())
    {
      assert txs[..i + 1][..i] == txs[..i];
      OrderFailsEarly(c, u, txs, magic, height, i + 1);
      var fee := ValidateTransaction(c, branch.View(), txs[i], magic, height);
      if fee.Err? { return Err(fee.error); }
      branch.ApplyTransaction(c, txs[i]);
    }
    assert txs[..|txs|] == txs;
    r := Ok(branch.View());
  }

  /** `validate_block_against_parent` once the context of the parent is at hand. */
  method ValidateHere(c: Crypto, magic: U32, chain: seq<Block>, ledger: Replayed, b: Block,
          now: nat) returns (r: Result<()>)
    requires Numbered(chain) && b.transactions != []
    ensures r == ValidateInContext(c, magic, chain, ledger, b, now)
  {
    if b.header.bits != NextBits(chain) { return Err(BitsMismatch); }
    if !ValidTimestamp(b.header.timestamp, PastMedian(TimestampsOf(chain)), now) { return Err(TimestampOutOfRange); }
    var subsidy := ValidateSubsidy(c, magic, ledger, b);
    if subsidy.Err? { return subsidy; }
    var applied := ValidateInOrder(c, ledger.utxo, b.transactions[1..], magic, b.height);
    r := if applied.Err? then Err(applied.error) else Ok(());
  }

  lemma {:induction false} ReplayFailsEarly(c: Crypto, chain: seq<Block>, k: nat)
    requires k <= |chain| && Replay(c, chain[..k]).None?
    ensures Replay(c, chain).None?
    decreases |chain|
  {
    if k < |chain| {
      assert chain[..|chain| - 1][..k] == chain[..k];
      ReplayFailsEarly(c, chain[..|chain| - 1], k);
    } else {
      assert chain[..k] == chain;
    }
  }

  /** The replay loop of `parent_context`. */
  method ReplayBlocks(c: Crypto, chain: seq<Block>) returns (r: Option<Replayed>)
    ensures r == Replay(c, chain)
  {
    var utxoSet := new UtxoSet();
    var minted: nat := 0;
    for i := 0 to |chain|
      invariant fresh(utxoSet)
      invariant Replay(c, chain[..i]) == Some(Replayed(utxoSet.View(), minted))
    {
      ReplayNext(c, chain, i);
      Advances(c, Replayed(utxoSet.View(), minted), chain[i]);
      if minted + CoinbaseValue(chain[i]) > MAX_U64 {
        ReplayFailsEarly(c, chain, i + 1);
        return None;
      }
      minted := minted + CoinbaseValue(chain[i]);
      utxoSet.ApplyTransactions(c, chain[i].transactions);
    }
    assert chain[..|chain|] == chain;
    r := Some(Replayed(utxoSet.View(), minted));
  }
}

/** The node as the program holds it: fields updated in place, every method proved to move the abstract node
    of `Nodes` (`Blockchain` of src/blockchain/chain.rs, without its store). */
module Blockchains {
  import opened Basics
  import opened Transactions
  import opened Ledger
  import opened UtxoStore
  import opened Targets
  import opened Blocks
  import opened BlockTree
  import opened PoolStore
  import opened BlockValidation
  import opened Nodes
  import opened Invariant
  import Pools

  /** Every link between stored blocks raises the height by one. */
  ghost predicate Linked(all: map<Hash, Block>) {
    forall h | h in all && all[h].height > 0 && all[h].header.prevHash in all
      :: all[all[h].header.prevHash].height + 1 == all[h].height
  }

  lemma TreeIsLinked(r: Rules, all: map<Hash, Block>, hist: map<Hash, Block>)
    requires Tree(r, hist) && Within(all, hist)
    ensures Linked(all)
  {
    forall h | h in all && all[h].height > 0 && all[h].header.prevHash in all
      ensures all[all[h].header.prevHash].height + 1 == all[h].height
    {
      BranchOf(r, hist, h);
    }
  }

  function Reversed(s: seq<Block>): (r: seq<Block>)
    ensures |r| == |s|
  {
    seq(|s|, i requires 0 <= i < |s| => s[|s| - 1 - i])
  }

  /** What the walk finds below the cursor, with the blocks already collected on top. */
  function Onto(below: Option<seq<Block>>, collected: seq<Block>): Option<seq<Block>> {
    match below case None => None case Some(s) => Some(s + Reversed(collected))
  }

  lemma OntoStep(all: map<Hash, Block>, h: Hash, collected: seq<Block>)
    requires Linked(all) && h in all
    ensures all[h].height > 0 ==>
            Onto(ChainTo(all, h), collected) == Onto(ChainTo(all, all[h].header.prevHash), collected + [all[h]])
    ensures all[h].height == 0 ==> Onto(ChainTo(all, h), collected) == Some(Reversed(collected + [all[h]]))
  {
    var b, top := all[h], Reversed(collected);
    assert Reversed(collected + [b]) == [b] + top;
    if b.height > 0 && ChainTo(all, b.header.prevHash).Some? {
      var below := ChainTo(all, b.header.prevHash).value;
      assert (below + [b]) + top == below + ([b] + top);
    }
  }

  /** The loop of `chain_to_hash`: follow parent hashes to genesis, then turn the list around. */
  method ChainToHash(all: map<Hash, Block>, h: Hash) returns (r: Result<seq<Block>>)
    requires Linked(all)
    ensures r == match ChainTo(all, h) case None => Err(UnknownBlock) case Some(s) => Ok(s)
  {
    var chain: seq<Block> := [];
    var cursor := h;
    assert Reversed(chain) == [];
    while true
      invariant Onto(ChainTo(all, h), []) == Onto(ChainTo(all, cursor), chain)
      decreases if cursor in all then all[cursor].height + 1 else 0
    {
      OntoNothing(ChainTo(all, h));
      if cursor !in all { return Err(UnknownBlock); }
      var b := all[cursor];
      OntoStep(all, cursor, chain);
      chain := chain + [b];
      if b.height == 0 { return Ok(Reversed(chain)); }
      cursor := b.header.prevHash;
    }
  }

  lemma OntoNothing(below: Option<seq<Block>>)
    ensures Onto(below, []) == below
  {
    if below.Some? { assert below.value + Reversed([]) == below.value; }
  }

  lemma {:induction false} ReplayableStops(c: Crypto, chain: seq<Block>, i: nat)
    requires i < |chain| && Replay(c, chain[..i]).Some? && Replay(c, chain[..i + 1]).None?
    ensures Replay(c, chain).None? && Replayable(c, chain) == chain[..i]
    decreases |chain|
  {
    ReplayFailsEarly(c, chain, i + 1);
    var front := chain[..|chain| - 1];
    assert front[..i] == chain[..i];
    if i + 1 < |chain| {
      assert front[..i + 1] == chain[..i + 1];
      ReplayableStops(c, front, i);
    } else {
      assert front == chain[..i];
    }
  }

  /** One block of the rebuild loop: outputs applied, pool entries dropped, transaction by transaction. */
  method AbsorbBlock(c: Crypto, outputs: UtxoSet, pool: Mempool, txs: seq<Transaction>)
    modifies outputs, pool
    ensures outputs.View() == ApplyAll(c, old(outputs.View()), txs)
    ensures pool.View() == Pools.RemoveAll(c, old(pool.View()), txs)
  {
    for i := 0 to |txs|
      invariant outputs.View() == ApplyAll(c, old(outputs.View()), txs[..i])
      invariant pool.View() == Pools.RemoveAll(c, old(pool.View()), txs[..i])
    {
      outputs.ApplyTransaction(c, txs[i]);
      pool.Remove(c, Txid(c, txs[i]));
      assert txs[..i + 1][..i] == txs[..i];
    }
    assert txs[..|txs|] == txs;
  }

  /** The rebuild loop has dealt with exactly the blocks `part`. */
  ghost predicate Rebuilt(c: Crypto, before: Pools.Pool, part: seq<Block>, index: map<Hash, nat>, r: Replayed,
          pool: Pools.Pool) {
    && Replay(c, part) == Some(r)
    && index == IndexOf(KeyOf(c), part)
    && pool == RemoveBlocks(c, before, part)
  }

  lemma RemoveNext(c: Crypto, pool: Pools.Pool, chain: seq<Block>, i: nat)
    requires i < |chain|
    ensures RemoveBlocks(c, pool, chain[..i + 1]) == Pools.RemoveAll(c, RemoveBlocks(c, pool, chain[..i]), chain[i].transactions)
  {
    assert chain[..i + 1][..i] == chain[..i];
  }

  lemma IndexNext(key: Block -> Hash, chain: seq<Block>, i: nat)
    requires i < |chain|
    ensures IndexOf(key, chain[..i + 1]) == IndexOf(key, chain[..i])[key(chain[i]) := i]
  {
    assert chain[..i + 1][..i] == chain[..i];
  }

  lemma ReplayFits(c: Crypto, chain: seq<Block>, i: nat, r: Replayed, r': Replayed)
    requires i < |chain| && Replay(c, chain[..i]) == Some(r) && r.minted + CoinbaseValue(chain[i]) <= MAX_U64
    requires r' == Replayed(ApplyAll(c, r.utxo, chain[i].transactions), r.minted + CoinbaseValue(chain[i]))
    ensures Replay(c, chain[..i + 1]) == Some(r')
  {
    ReplayNext(c, chain, i);
    Advances(c, r, chain[i]);
  }

  lemma RebuiltNext(c: Crypto, before: Pools.Pool, chain: seq<Block>, i: nat,
                    index: map<Hash, nat>, r: Replayed, pool: Pools.Pool, r': Replayed, pool': Pools.Pool)
    requires i < |chain| && Rebuilt(c, before, chain[..i], index, r, pool)
    requires Replay(c, chain[..i + 1]) == Some(r') && pool' == Pools.RemoveAll(c, pool, chain[i].transactions)
    ensures Rebuilt(c, before, chain[..i + 1], index[KeyOf(c)(chain[i]) := i], r', pool')
  {
    RemoveNext(c, before, chain, i);
    IndexNext(KeyOf(c), chain, i);
  }

  /** One turn of the rebuild loop, for a block whose coinbase still fits. */
  method RebuildOne(c: Crypto, ghost before: Pools.Pool, chain: seq<Block>, i: nat,
                    index: map<Hash, nat>, outputs: UtxoSet, minted: nat, pool: Mempool)
    returns (index': map<Hash, nat>, minted': nat)
    requires i < |chain| && Rebuilt(c, before, chain[..i], index, Replayed(outputs.View(), minted), pool.View())
    requires minted + CoinbaseValue(chain[i]) <= MAX_U64
    modifies outputs, pool
    ensures Rebuilt(c, before, chain[..i + 1], index', Replayed(outputs.View(), minted'), pool.View())
  {
    index' := index[KeyOf(c)(chain[i]) := i];
    minted' := minted + CoinbaseValue(chain[i]);
    AbsorbBlock(c, outputs, pool, chain[i].transactions);
    ReplayFits(c, chain, i, Replayed(old(outputs.View()), minted), Replayed(outputs.View(), minted'));
    RebuiltNext(c, before, chain, i, index, Replayed(old(outputs.View()), minted), old(pool.View()),
                Replayed(outputs.View(), minted'), pool.View());
  }

  lemma RebuiltStops(c: Crypto, before: Pools.Pool, chain: seq<Block>, i: nat, index: map<Hash, nat>, r: Replayed,
          pool: Pools.Pool)
    requires i < |chain| && Rebuilt(c, before, chain[..i], index, r, pool)
    requires r.minted + CoinbaseValue(chain[i]) > MAX_U64
    ensures Replay(c, chain).None? && pool == RemoveBlocks(c, before, Replayable(c, chain))
  {
    assert chain[..i + 1][..i] == chain[..i];
    ReplayableStops(c, chain, i);
  }

  /** The loop of `rebuild_active_state`. */
  method RebuildFrom(c: Crypto, pool: Mempool, chain: seq<Block>)
    returns (ok: bool, index: map<Hash, nat>, outputs: UtxoSet, minted: nat)
    modifies pool
    ensures fresh(outputs)
    ensures ok ==> Rebuilt(c, old(pool.View()), chain, index, Replayed(outputs.View(), minted), pool.View())
    ensures !ok ==> Replay(c, chain).None? && pool.View() == RemoveBlocks(c, old(pool.View()), Replayable(c, chain))
  {
    ok, index, minted := true, map[], 0;
    outputs := new UtxoSet();
    for i := 0 to |chain|
      invariant fresh(outputs)
      invariant Rebuilt(c, old(pool.View()), chain[..i], index, Replayed(outputs.View(), minted), pool.View())
    {
      if minted + CoinbaseValue(chain[i]) > MAX_U64 {
        RebuiltStops(c, old(pool.View()), chain, i, index, Replayed(outputs.View(), minted), pool.View());
        ok := false;
        return;
      }
      index, minted := RebuildOne(c, old(pool.View()), chain, i, index, outputs, minted, pool);
    }
    assert chain[..|chain|] == chain;
  }

  lemma StoredIsLinked(c: Crypto, r: Rules, f: Forest, hist: map<Hash, Block>, b: Block, w: nat)
    requires r.key == KeyOf(c) && Sound(r) && Tree(r, hist) && Within(f.all, hist) && Accepted(r, f, hist, b, w)
    ensures Linked(f.all[BlockHash(c, b) := b])
  {
    TreeGrows(r, hist, b);
    StoredWithin(r, f, hist, b);
    TreeIsLinked(r, f.all[r.key(b) := b], hist[r.key(b) := b]);
  }

  /** Links are in order in every reachable node, before and after one more lawful block is stored. */
  lemma StaysLinked(c: Crypto, g: Block, n: Node, hist: map<Hash, Block>, b: Block, now: nat, seen: set<Block>)
    requires Inv(c, g, n, hist) && NoCollisions(c, seen) && hist.Values <= seen && b in seen
    ensures Linked(n.all)
    ensures BlockHash(c, b) !in n.all && Check(c, n, b, now).Ok? ==> Linked(n.all[BlockHash(c, b) := b])
  {
    var r := RulesOf(c, n.magic, g);
    RulesAreSound(c, n.magic, g);
    TreeIsLinked(r, n.all, hist);
    if BlockHash(c, b) !in n.all && Check(c, n, b, now).Ok? {
      PassesToTree(c, g, n, hist, b, now, seen);
      StoredIsLinked(c, r, n.Forest(), hist, b, Check(c, n, b, now).value);
    }
  }

  /** What pruning keeps: blocks less than two hundred below the tip, and active blocks. */
  ghost predicate Stays(c: Crypto, blocks: seq<Block>, b: Block, h: Hash) {
    b.height + FINALITY_DEPTH >= |blocks| || exists a :: a in blocks && a.height + FINALITY_DEPTH < |blocks| && KeyOf(c)(a) == h
  }

  lemma PrunedMeans(c: Crypto, f: Forest)
    requires Numbered(f.blocks)
    ensures var p := Pruned(KeyOf(c), f);
            && (forall h :: h in p.all <==> h in f.all && Stays(c, f.blocks, f.all[h], h))
            && (forall h | h in p.all :: p.all[h] == f.all[h])
            && (|f.blocks| > FINALITY_DEPTH ==> forall h :: h in p.work <==> h in f.work && h in p.all)
            && (forall h | h in p.work :: h in f.work && p.work[h] == f.work[h])
  {
  }

  /** Hashes of the active blocks at or below the cutoff. */
  /** The checks before the branch is looked at: a known parent, a valid structure, the next height. */
  method ValidateLink(c: Crypto, all: map<Hash, Block>, b: Block) returns (r: Result<()>)
    ensures r == CheckLink(c, Lookup(all, b.header.prevHash), b)
  {
    if b.header.prevHash !in all { return Err(UnknownParent); }
    var parent := all[b.header.prevHash];
    r := ValidateBlock(c, b, BlockHash(c, parent));
    if r.Ok? && b.height != parent.height + 1 { r := Err(HeightMismatch); }
  }

  method ActiveHashes(c: Crypto, blocks: seq<Block>, cutoff: nat) returns (active: set<Hash>)
    ensures active == set b | b in blocks && b.height <= cutoff :: KeyOf(c)(b)
  {
    active := {};
    for i := 0 to |blocks|
      invariant active == set b | b in blocks[..i] && b.height <= cutoff :: KeyOf(c)(b)
    {
      assert blocks[..i + 1] == blocks[..i] + [blocks[i]];
      if blocks[i].height <= cutoff {
        active := active + {KeyOf(c)(blocks[i])};
      }
    }
    assert blocks[..|blocks|] == blocks;
  }

  /** `retain` on the stored blocks. */
  method RetainBlocks(all: map<Hash, Block>, cutoff: nat, active: set<Hash>) returns (kept: map<Hash, Block>)
    ensures kept == map h | h in all && (all[h].height > cutoff || h in active) :: all[h]
  {
    var todo := all.Keys;
    kept := map[];
    while todo != {}
      invariant todo <= all.Keys
      invariant kept == map h | h in all && h !in todo && (all[h].height > cutoff || h in active) :: all[h]
      decreases |todo|
    {
      var h :| h in todo;
      if all[h].height > cutoff || h in active {
        kept := kept[h := all[h]];
      }
      todo := todo - {h};
    }
  }

  /** `retain` on the work map, against the blocks that were kept. */
  method RetainWork(work: map<Hash, nat>, all: map<Hash, Block>) returns (kept: map<Hash, nat>)
    ensures kept == map h | h in work && h in all :: work[h]
  {
    var todo := work.Keys;
    kept := map[];
    while todo != {}
      invariant todo <= work.Keys
      invariant kept == map h | h in work && h !in todo && h in all :: work[h]
      decreases |todo|
    {
      var h :| h in todo;
      if h in all {
        kept := kept[h := work[h]];
      }
      todo := todo - {h};
    }
  }

  /** A reachable node, and a block to deliver among blocks on which nothing collides. */
  ghost function Deliverable(c: Crypto, g: Block): (Node, map<Hash, Block>, Block, set<Block>) -> bool {
    (n: Node, hist: map<Hash, Block>, b: Block, seen: set<Block>) =>
      Inv(c, g, n, hist) && NoCollisions(c, seen) && hist.Values <= seen && b in seen
  }

  lemma DeliverableIsLinked(c: Crypto, g: Block, n: Node, hist: map<Hash, Block>, b: Block, now: nat, seen: set<Block>)
    requires Deliverable(c, g)(n, hist, b, seen)
    ensures Numbered(n.blocks) && Linked(n.all)
    ensures BlockHash(c, b) !in n.all && Check(c, n, b, now).Ok? ==> Linked(n.all[BlockHash(c, b) := b])
  {
    StaysLinked(c, g, n, hist, b, now, seen);
  }

  class Blockchain {
    const networkMagic: U32
    var blocks: seq<Block>
    var blockIndex: map<Hash, nat>
    var allBlocks: map<Hash, Block>
    var chainWork: map<Hash, nat>
    var utxoSet: UtxoSet
    var mempool: Mempool
    var totalMinted: nat

    function View(): Node
      reads this, utxoSet, mempool
    {
      Node(networkMagic, blocks, blockIndex, allBlocks, chainWork, utxoSet.View(), mempool.View(), totalMinted)
    }

    constructor (c: Crypto, magic: U32, g: Block)
      ensures View() == Start(c, magic, g)
      ensures fresh(utxoSet) && fresh(mempool)
    {
      var outputs := new UtxoSet();
      outputs.ApplyTransactions(c, g.transactions);
      var pool := new Mempool();
      var h := BlockHash(c, g);
      networkMagic, blocks, blockIndex := magic, [g], map[h := 0];
      allBlocks, chainWork := map[h := g], map[h := BlockWork(g.header.bits)];
      utxoSet, mempool, totalMinted := outputs, pool, CoinbaseValue(g);
    }

    /** `parent_context`. */
    method ContextOf(c: Crypto, parent: Hash) returns (r: Result<Context>)
      requires Numbered(blocks) && Linked(allBlocks)
      ensures r == ParentContext(c, View(), parent)
    {
      if parent == BlockHash(c, blocks[|blocks| - 1]) {
        return Ok(Context(blocks, Replayed(utxoSet.View(), totalMinted)));
      }
      var chain := ChainToHash(allBlocks, parent);
      if chain.Err? { return Err(UnknownBlock); }
      var ledger := ReplayBlocks(c, chain.value);
      r := if ledger.None? then Err(MintedOverflow) else Ok(Context(chain.value, ledger.value));
    }

    /** The reading half of `add_block`. */
    method Validate(c: Crypto, b: Block, now: nat) returns (r: Result<nat>)
      requires Numbered(blocks) && Linked(allBlocks)
      ensures r == Check(c, View(), b, now)
    {
      var parent := b.header.prevHash;
      var link := ValidateLink(c, allBlocks, b);
      if link.Err? { return Err(link.error); }
      var context := ContextOf(c, parent);
      if context.Err? { return Err(context.error); }
      var verdict := ValidateHere(c, networkMagic, context.value.chain, context.value.ledger, b, now);
      r := Weigh(verdict, Lookup(chainWork, parent), BlockWork(b.header.bits));
    }

    /** `prune_stale_orphans`: a block is retained if and only if it was, and it lies less than two hundred blocks below the
        tip or is active; its work is retained with it, and nothing else changes. */
    method PruneStaleOrphans(c: Crypto)
      requires Numbered(blocks)
      modifies this`allBlocks, this`chainWork
      ensures forall h :: h in allBlocks <==> h in old(allBlocks) && Stays(c, blocks, old(allBlocks)[h], h)
      ensures forall h | h in allBlocks :: allBlocks[h] == old(allBlocks)[h]
      ensures |blocks| > FINALITY_DEPTH ==> forall h :: h in chainWork <==> h in old(chainWork) && h in allBlocks
      ensures forall h | h in chainWork :: h in old(chainWork) && chainWork[h] == old(chainWork)[h]
      ensures View() == Prune(c, old(View()))
    {
      ghost var f := Forest(blocks, allBlocks, chainWork);
      PrunedMeans(c, f);
      if |blocks| <= FINALITY_DEPTH { return; }
      var cutoff := |blocks| - 1 - FINALITY_DEPTH;
      var active := ActiveHashes(c, blocks, cutoff);
      allBlocks := RetainBlocks(allBlocks, cutoff, active);
      chainWork := RetainWork(chainWork, allBlocks);
      assert allBlocks == Pruned(KeyOf(c), f).all;
      assert chainWork == Pruned(KeyOf(c), f).work;
    }

    /** `rebuild_active_state`. */
    method RebuildActiveState(c: Crypto, chain: seq<Block>) returns (r: Result<()>)
      modifies this`blocks, this`blockIndex, this`utxoSet, this`totalMinted, mempool
      ensures View() == Rebuild(c, old(View()), chain).node && r == Rebuild(c, old(View()), chain).result
      ensures fresh(utxoSet) || utxoSet == old(utxoSet)
    {
      var ok, index, outputs, minted := RebuildFrom(c, mempool, chain);
      if !ok { return Err(MintedOverflow); }
      blocks, blockIndex, utxoSet, totalMinted := chain, index, outputs, minted;
      r := Ok(());
    }

    /** `activate_chain`. */
    method ActivateChain(c: Crypto, h: Hash) returns (r: Result<()>)
      requires Linked(allBlocks)
      modifies this`blocks, this`blockIndex, this`utxoSet, this`totalMinted, mempool
      ensures View() == Activate(c, old(View()), h).node && r == Activate(c, old(View()), h).result
      ensures fresh(utxoSet) || utxoSet == old(utxoSet)
    {
      var chain := ChainToHash(allBlocks, h);
      if chain.Err? { return Err(chain.error); }
      r := RebuildActiveState(c, chain.value);
    }

    /** The new tip if it is heavier, then pruning. */
    method ChooseBranch(c: Crypto, h: Hash, w: nat) returns (r: Result<()>)
      requires Numbered(blocks) && Linked(allBlocks) && TipHash(c, View()) in chainWork
      modifies this`blocks, this`blockIndex, this`allBlocks, this`chainWork, this`utxoSet, this`totalMinted, mempool
      ensures var n := old(View());
              Step(View(), r) == Finish(c, if w > n.work[TipHash(c, n)] then Activate(c, n, h) else Step(n, Ok(())))
      ensures fresh(utxoSet) || utxoSet == old(utxoSet)
    {
      r := Ok(());
      if w > chainWork[BlockHash(c, blocks[|blocks| - 1])] {
        r := ActivateChain(c, h);
      }
      if r.Ok? {
        PruneStaleOrphans(c);
      }
    }

    /** `add_block` after validation: store, choose between the branches, prune. */
    method AdmitBlock(c: Crypto, b: Block, w: nat) returns (r: Result<()>)
      requires Numbered(blocks) && Linked(allBlocks[BlockHash(c, b) := b])
      modifies this`blocks, this`blockIndex, this`allBlocks, this`chainWork, this`utxoSet, this`totalMinted, mempool
      ensures Step(View(), r) == Admit(c, old(View()), b, w)
      ensures fresh(utxoSet) || utxoSet == old(utxoSet)
    {
      ghost var m := Store(c, View(), b, w);
      AdmitOutcome(c, View(), b, w, m);
      var h := BlockHash(c, b);
      chainWork, allBlocks := chainWork[h := w], allBlocks[h := b];
      assert View() == m;
      if BlockHash(c, blocks[|blocks| - 1]) !in chainWork { return Err(MissingWork); }
      r := ChooseBranch(c, h, w);
    }

    /** `add_block`, for a tree whose links are in order. */
    method Receive(c: Crypto, b: Block, now: nat) returns (r: Result<()>)
      requires Numbered(blocks) && Linked(allBlocks)
      requires BlockHash(c, b) !in allBlocks && Check(c, View(), b, now).Ok? ==> Linked(allBlocks[BlockHash(c, b) := b])
      modifies this`blocks, this`blockIndex, this`allBlocks, this`chainWork, this`utxoSet, this`totalMinted, mempool
      ensures Step(View(), r) == Nodes.AddBlock(c, old(View()), b, now)
      ensures fresh(utxoSet) || utxoSet == old(utxoSet)
    {
      if BlockHash(c, b) in allBlocks { return Ok(()); }
      var w := Validate(c, b, now);
      if w.Err? { return Err(w.error); }
      r := AdmitBlock(c, b, w.value);
    }

    /** `add_block`: in every reachable state the node takes exactly the step `Nodes.AddBlock` specifies. */
    method AddBlock(c: Crypto, b: Block, now: nat, ghost g: Block, ghost hist: map<Hash, Block>, ghost seen: set<Block>)
      returns (r: Result<()>)
      requires Deliverable(c, g)(View(), hist, b, seen)
      modifies this`blocks, this`blockIndex, this`allBlocks, this`chainWork, this`utxoSet, this`totalMinted, mempool
      ensures Numbered(old(blocks)) && Step(View(), r) == Nodes.AddBlock(c, old(View()), b, now)
      ensures fresh(utxoSet) || utxoSet == old(utxoSet)
    {
      DeliverableIsLinked(c, g, View(), hist, b, now, seen);
      r := Receive(c, b, now);
    }

    /** `submit_transaction`. */
    method Submit(c: Crypto, tx: Transaction) returns (r: Result<Hash>)
      requires Numbered(blocks)
      modifies mempool
      ensures var fee := ValidateTx(c, old(utxoSet.View()), tx, networkMagic, old(blocks[|blocks| - 1].height));
              Pools.Admission(mempool.View(), r) == Pools.Offer(c, old(mempool.View()), tx, fee)
    {
      var fee := ValidateTransaction(c, utxoSet.View(), tx, networkMagic, blocks[|blocks| - 1].height);
      r := mempool.Offer(c, tx, fee);
    }
  }
}
