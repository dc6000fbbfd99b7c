/** Building a block on the active tip, finding its nonce, and delivering it back to the node that built it
    (`mine_block` of src/blockchain/chain.rs, `mine_block_header` of src/blockchain/block.rs). */
module Mining {
  import opened Basics
  import opened Transactions
  import opened Ledger
  import opened Targets
  import opened Timestamps
  import opened Emission
  import opened Blocks
  import opened Supply
  import opened DoubleSpend
  import opened BlockTree
  import opened Pools
  import opened Nodes
  import opened Invariant
  import opened Runs
  import opened Guarantees
  import Admissions

  const MAX_SELECTED: nat := 500
  const NONCES: nat := 0x1_0000_0000_0000_0000

  // ---------- the nonce search ----------

  /** One turn of the search: the next nonce, and a later timestamp each time the nonces run out. */
  function Tick(h: Header): Header {
    var nonce := (h.nonce + 1) % NONCES;
    h.(nonce := nonce, timestamp := if nonce == 0 then h.timestamp + 1 else h.timestamp)
  }

  function HeaderAfter(h: Header, k: nat): Header {
    if k == 0 then h else Tick(HeaderAfter(h, k - 1))
  }

  /** The search only ever moves the nonce and, once per 2^64 tries, the timestamp. */
  lemma {:induction false} SearchShape(h: Header, k: nat)
    ensures HeaderAfter(h, k) == h.(nonce := (h.nonce + k) % NONCES, timestamp := h.timestamp + (h.nonce + k) / NONCES)
  {
    if k > 0 {
      SearchShape(h, k - 1);
      NextNonce(h.nonce + k - 1);
    }
  }

  lemma NextNonce(m: nat)
    ensures (m % NONCES + 1) % NONCES == (m + 1) % NONCES
    ensures (m + 1) / NONCES == m / NONCES + if (m + 1) % NONCES == 0 then 1 else 0
  {
  }

  /** The search started at `h` stops after exactly `k` turns. */
  ghost predicate SolvedAfter(c: Crypto, h: Header, k: nat) {
    MeetsTarget(c, HeaderAfter(h, k)) && forall j: nat | j < k :: !MeetsTarget(c, HeaderAfter(h, j))
  }

  /** `mine_block_header`, for a header whose search ends. */
  method MineHeader(c: Crypto, start: Header, ghost k: nat) returns (h: Header)
    requires SolvedAfter(c, start, k)
    ensures h == HeaderAfter(start, k) && FromBe(c.hash256(c.headerBytes(h))) <= TargetValue(h.bits)
  {
    h := start;
    ghost var tries := 0;
    var found := CheckTarget(c, h);
    while !found
      invariant tries <= k && h == HeaderAfter(start, tries) && found == MeetsTarget(c, h)
      decreases k - tries, !found
    {
      h := Tick(h);
      tries := tries + 1;
      found := CheckTarget(c, h);
    }
    assert tries == k;
    WorkIsNumeric(c, h);
  }

  // ---------- building the block ----------

  /** `next_block_timestamp`. */
  function NextTimestamp(n: Node, now: nat): nat { Max(now, PastMedian(TimestampsOf(n.blocks)) + 1) }

  /** `capped_block_reward`. */
  function CappedReward(n: Node, height: nat): nat { Min(BlockReward(height), SatSub(MAX_SUPPLY, n.minted)) }

  /** Recorded fees of the selection, saturating. */
  function SelectedFees(c: Crypto, p: Pool, txs: seq<Transaction>): (r: nat)
    ensures r <= MAX_U64
  {
    if txs == [] then 0
    else SatAdd(SelectedFees(c, p, txs[..|txs| - 1]), FeeFor(p, Txid(c, txs[|txs| - 1])))
  }

  function SumOf(fee: Transaction -> nat, txs: seq<Transaction>): nat {
    if txs == [] then 0 else SumOf(fee, txs[..|txs| - 1]) + fee(txs[|txs| - 1])
  }

  function RecordedFee(c: Crypto, p: Pool): Transaction -> nat { (tx: Transaction) => FeeFor(p, Txid(c, tx)) }

  function ExactFees(c: Crypto, p: Pool, txs: seq<Transaction>): nat { SumOf(RecordedFee(c, p), txs) }

  /** The block that pays `pay` to `miner` and carries `txs`, before the nonce search. */
  function Candidate(c: Crypto, n: Node, txs: seq<Transaction>, pay: U64, miner: string, now: nat): Block
    requires Numbered(n.blocks)
  {
    var body := [Coinbase(miner, pay, |n.blocks|)] + txs;
    Block(Header(1, TipHash(c, n), MerkleRoot(c, body), NextTimestamp(n, now), NextBits(n.blocks), 0), body, |n.blocks|)
  }

  function Solved(b: Block, k: nat): Block { b.(header := HeaderAfter(b.header, k)) }

  /** `mine_block`: up to 500 pool transactions by fee rate, a coinbase for reward and fees. `ids` is the order in
      which the pool's map delivers its entries, `k` the length of the nonce search. */
  function MineBlock(c: Crypto, n: Node, ids: seq<Hash>, miner: string, now: nat, k: nat): Block
    requires Numbered(n.blocks) && InPool(n.pool, ids)
  {
    Solved(Assemble(c, n, ids, miner, now), k)
  }

  function Assemble(c: Crypto, n: Node, ids: seq<Hash>, miner: string, now: nat): Block
    requires Numbered(n.blocks) && InPool(n.pool, ids)
  {
    var txs := Take(c, n.pool, ids, MAX_SELECTED);
    Candidate(c, n, txs, Payment(c, n, txs), miner, now)
  }

  // ---------- the selection against the tip ----------

  /** Valid now, at its recorded fee, at the height of the next block. */
  ghost predicate Priced(c: Crypto, n: Node, tx: Transaction) {
    ValidateTx(c, n.utxo, tx, n.magic, |n.blocks|) == Ok(FeeFor(n.pool, Txid(c, tx)))
  }

  /** The transaction neither spends what an earlier one spends nor has outputs in the set already. */
  ghost predicate Compatible(c: Crypto, n: Node, txs: seq<Transaction>) {
    && (forall i, j | 0 <= i < j < |txs| :: SpentSet(txs[i].inputs) !! SpentSet(txs[j].inputs))
    && (forall i, o | 0 <= i < |txs| && o in n.utxo.outs :: o.txid != Txid(c, txs[i]))
  }

  ghost predicate Selectable(c: Crypto, n: Node, txs: seq<Transaction>) {
    (forall i | 0 <= i < |txs| :: Priced(c, n, txs[i])) && Compatible(c, n, txs)
  }

  lemma {:induction false} SaturationIdle(c: Crypto, p: Pool, txs: seq<Transaction>)
    requires ExactFees(c, p, txs) <= MAX_U64
    ensures SelectedFees(c, p, txs) == ExactFees(c, p, txs)
  {
    if txs != [] { SaturationIdle(c, p, txs[..|txs| - 1]); }
  }

  function SumPrices(price: Transaction -> Result<nat>, txs: seq<Transaction>): Result<nat> {
    if txs == [] then Ok(0) else AddFee(SumPrices(price, txs[..|txs| - 1]), price(txs[|txs| - 1]))
  }

  function Pricer(c: Crypto, n: Node): Transaction -> Result<nat> {
    (tx: Transaction) => ValidateTx(c, n.utxo, tx, n.magic, |n.blocks|)
  }

  lemma {:induction false} FeesAreSummed(c: Crypto, n: Node, txs: seq<Transaction>)
    ensures TotalFees(c, n.utxo, txs, n.magic, |n.blocks|) == SumPrices(Pricer(c, n), txs)
  {
    if txs != [] { FeesAreSummed(c, n, txs[..|txs| - 1]); }
  }

  lemma {:induction false} PricesAddUp(price: Transaction -> Result<nat>, fee: Transaction -> nat, txs: seq<Transaction>)
    requires SumOf(fee, txs) <= MAX_U64 && forall i | 0 <= i < |txs| :: price(txs[i]) == Ok(fee(txs[i]))
    ensures SumPrices(price, txs) == Ok(SumOf(fee, txs))
  {
    if txs != [] { PricesAddUp(price, fee, txs[..|txs| - 1]); }
  }

  /** The fees the validator adds up are the recorded ones. */
  lemma FeesAddUp(c: Crypto, n: Node, txs: seq<Transaction>)
    requires ExactFees(c, n.pool, txs) <= MAX_U64 && forall i | 0 <= i < |txs| :: Priced(c, n, txs[i])
    ensures TotalFees(c, n.utxo, txs, n.magic, |n.blocks|) == Ok(ExactFees(c, n.pool, txs))
  {
    FeesAreSummed(c, n, txs);
    forall i | 0 <= i < |txs| ensures Pricer(c, n)(txs[i]) == Ok(RecordedFee(c, n.pool)(txs[i])) {
      assert Priced(c, n, txs[i]);
    }
    PricesAddUp(Pricer(c, n), RecordedFee(c, n.pool), txs);
  }

  lemma ApplyLeaves(c: Crypto, u: Utxos, tx: Transaction, o: Outpoint)
    requires !IsCoinbase(tx) && o in u.outs && o !in SpentSet(tx.inputs) && o.txid != Txid(c, tx)
    ensures o in Apply(c, u, tx).outs && Apply(c, u, tx).outs[o] == u.outs[o] && Apply(c, u, tx).mined == u.mined
  {
  }

  /** Transactions before `txs[k]` leave alone an output that they neither spend nor create again. */
  lemma {:induction false} Untouched(c: Crypto, u: Utxos, txs: seq<Transaction>, o: Outpoint)
    requires forall i | 0 <= i < |txs| :: !IsCoinbase(txs[i]) && o !in SpentSet(txs[i].inputs) && o.txid != Txid(c, txs[i])
    requires o in u.outs
    ensures var v := ApplyAll(c, u, txs); o in v.outs && v.outs[o] == u.outs[o] && v.mined == u.mined
  {
    if txs != [] {
      Untouched(c, u, txs[..|txs| - 1], o);
      ApplyLeaves(c, ApplyAll(c, u, txs[..|txs| - 1]), txs[|txs| - 1], o);
    }
  }

  lemma LaterAgrees(c: Crypto, n: Node, txs: seq<Transaction>, k: nat)
    requires Selectable(c, n, txs) && k < |txs| && forall i | 0 <= i < |txs| :: !IsCoinbase(txs[i])
    ensures AgreeOn(n.utxo, ApplyAll(c, n.utxo, txs[..k]), txs[k].inputs)
  {
    var v, inputs := ApplyAll(c, n.utxo, txs[..k]), txs[k].inputs;
    assert Priced(c, n, txs[k]);
    ValidMeaning(c, n.utxo, txs[k], n.magic, |n.blocks|, FeeFor(n.pool, Txid(c, txs[k])));
    forall i | 0 <= i < |inputs|
      ensures Spent(inputs[i]) in n.utxo.outs && Spent(inputs[i]) in v.outs
              && v.outs[Spent(inputs[i])] == n.utxo.outs[Spent(inputs[i])] && v.mined == n.utxo.mined
    {
      var o := Spent(inputs[i]);
      assert Spendable(c, n.utxo, inputs[i], SigHash(c, txs[k], n.magic), |n.blocks|);
      assert o in SpentSet(inputs);
      forall j | 0 <= j < k ensures o !in SpentSet(txs[..k][j].inputs) && o.txid != Txid(c, txs[..k][j]) {
        assert SpentSet(txs[j].inputs) !! SpentSet(txs[k].inputs);
      }
      Untouched(c, n.utxo, txs[..k], o);
    }
  }

  /** Transactions that are valid against the tip and pairwise compatible stay valid one after another. */
  lemma {:induction false} InOrderHolds(c: Crypto, n: Node, txs: seq<Transaction>, k: nat)
    requires Selectable(c, n, txs) && k <= |txs| && forall i | 0 <= i < |txs| :: !IsCoinbase(txs[i])
    ensures CheckInOrder(c, n.utxo, txs[..k], n.magic, |n.blocks|) == Ok(ApplyAll(c, n.utxo, txs[..k]))
  {
    if k > 0 {
      InOrderHolds(c, n, txs, k - 1);
      LaterAgrees(c, n, txs, k - 1);
      assert Priced(c, n, txs[k - 1]);
      ValidLater(c, n.utxo, ApplyAll(c, n.utxo, txs[..k - 1]), txs[k - 1], n.magic, |n.blocks|, |n.blocks|);
      assert txs[..k][..k - 1] == txs[..k - 1];
    }
  }

  // ---------- what a mined block is ----------

  /** The miner's due: the scheduled reward, or what is left of the cap if that is less, and the recorded fees of the
      selection, saturating at u64::MAX. One output pays it to the miner, and the coinbase declares its height. */
  lemma MinerIsPaid(c: Crypto, n: Node, ids: seq<Hash>, miner: string, now: nat, k: nat)
    requires Numbered(n.blocks) && InPool(n.pool, ids) && |n.blocks| < Pow256(8)
    ensures var b := MineBlock(c, n, ids, miner, now, k);
            var left := if n.minted <= MAX_SUPPLY then MAX_SUPPLY - n.minted else 0;
            && b.transactions != [] && b.transactions[1..] == Take(c, n.pool, ids, 500)
            && IsCoinbase(b.transactions[0]) && DeclaredHeight(b.transactions[0]) == |n.blocks|
            && |b.transactions[0].outputs| == 1 && b.transactions[0].outputs[0].EffectiveScript() == P2PKH(miner)
            && b.transactions[0].outputs[0].value
               == Min(Min(BlockReward(|n.blocks|), left) + ExactFees(c, n.pool, Take(c, n.pool, ids, 500)), MAX_U64)
  {
    var txs := Take(c, n.pool, ids, MAX_SELECTED);
    var pay := Payment(c, n, txs);
    assert ([Coinbase(miner, pay, |n.blocks|)] + txs)[1..] == txs;
    CoinbaseDeclares(miner, pay, |n.blocks|);
    FeesSaturate(c, n.pool, txs);
  }

  lemma {:induction false} FeesSaturate(c: Crypto, p: Pool, txs: seq<Transaction>)
    ensures SelectedFees(c, p, txs) == Min(ExactFees(c, p, txs), MAX_U64)
  {
    if txs != [] { FeesSaturate(c, p, txs[..|txs| - 1]); }
  }

  /** Its header: on the tip, over its own body, with the branch's bits, dated with the least time `t` that is neither before
      now nor at or below the past median (plus the seconds a very long nonce search adds). */
  lemma MinedHeader(c: Crypto, n: Node, ids: seq<Hash>, miner: string, now: nat, k: nat, t: nat)
    requires Numbered(n.blocks) && InPool(n.pool, ids)
    ensures var b := MineBlock(c, n, ids, miner, now, k);
            var start := b.header.timestamp - k / 0x1_0000_0000_0000_0000;
            && b.height == |n.blocks| && b.header.prevHash == TipHash(c, n)
            && b.header.merkleRoot == MerkleRoot(c, b.transactions) && b.header.bits == NextBits(n.blocks)
            && now <= start && PastMedian(TimestampsOf(n.blocks)) < start
            && (now <= t && PastMedian(TimestampsOf(n.blocks)) < t ==> start <= t)
  {
    SearchShape(Assemble(c, n, ids, miner, now).header, k);
  }

  // ---------- a lawful block on the tip becomes the tip ----------

  lemma TipBranch(c: Crypto, g: Block, n: Node, hist: map<Hash, Block>)
    requires Inv(c, g, n, hist)
    ensures TipHash(c, n) in hist && TipHash(c, n) in n.all && Branch(hist, TipHash(c, n)) == n.blocks
    ensures ChainTo(n.all, TipHash(c, n)) == Some(n.blocks)
  {
    TipWalk(c, g, n, hist);
  }

  lemma TipAcceptable(c: Crypto, g: Block, n: Node, hist: map<Hash, Block>, b: Block, now: nat)
    requires Inv(c, g, n, hist) && Lawful(c, n.magic, n.blocks, b) && b.header.timestamp <= now + MAX_DRIFT
    requires Work(RulesOf(c, n.magic, g), n.blocks) + BlockWork(b.header.bits) <= MAX_U128
    ensures Acceptable(c, g, n, hist, b, now) && Branch(hist, b.header.prevHash) == n.blocks
  {
    LawfulHeight(c, n.magic, n.blocks, b);
    TipBranch(c, g, n, hist);
  }

  lemma ChecksOut(c: Crypto, g: Block, n: Node, hist: map<Hash, Block>, b: Block, now: nat, w: nat)
    requires Inv(c, g, n, hist) && Acceptable(c, g, n, hist, b, now)
    requires w == Work(RulesOf(c, n.magic, g), Branch(hist, b.header.prevHash)) + BlockWork(b.header.bits)
    ensures Check(c, n, b, now).Ok? && Check(c, n, b, now).value == w
  {
    VerdictByBranch(c, g, n, hist, b, now);
  }

  lemma TipAccepted(c: Crypto, g: Block, n: Node, hist: map<Hash, Block>, b: Block)
    requires Inv(c, g, n, hist) && Lawful(c, n.magic, n.blocks, b) && BlockHash(c, b) !in hist
    ensures var r := RulesOf(c, n.magic, g);
            Accepted(r, n.Forest(), hist, b, Work(r, n.blocks) + BlockWork(b.header.bits)) && BlockHash(c, b) !in n.all
  {
    LawfulHeight(c, n.magic, n.blocks, b);
    TipBranch(c, g, n, hist);
    assert LawfulStep(c, n.magic)(n.blocks, b);
  }

  /** A block that is acceptable and new, on the heaviest branch that replays, moves the tip. */
  lemma HeavierMoves(c: Crypto, g: Block, n: Node, hist: map<Hash, Block>, b: Block, now: nat, w: nat)
    requires Inv(c, g, n, hist) && Acceptable(c, g, n, hist, b, now)
    requires Accepted(RulesOf(c, n.magic, g), n.Forest(), hist, b, w) && BlockHash(c, b) !in n.all
    requires w > Work(RulesOf(c, n.magic, g), n.blocks) && Replay(c, Branch(hist, b.header.prevHash) + [b]).Some?
    ensures AddBlock(c, n, b, now).result == Ok(())
    ensures AddBlock(c, n, b, now).node.blocks == Branch(hist, b.header.prevHash) + [b]
  {
    ChecksOut(c, g, n, hist, b, now, w);
    Passed(c, n, hist, b, now);
    AdmitMoves(c, g, n, hist, b, w);
  }

  /** A lawful, new block on the active tip, not too far in the future and with totals that still fit, is accepted
      and becomes the tip. */
  lemma ExtendsTip(c: Crypto, g: Block, n: Node, hist: map<Hash, Block>, b: Block, now: nat)
    requires Inv(c, g, n, hist) && Lawful(c, n.magic, n.blocks, b)
    requires b.header.timestamp <= now + MAX_DRIFT && TotalsFit(c, g, n, hist, b)
    ensures AddBlock(c, n, b, now).result == Ok(()) && AddBlock(c, n, b, now).node.blocks == n.blocks + [b]
  {
    TipAcceptable(c, g, n, hist, b, now);
    TipAccepted(c, g, n, hist, b);
    WorkAtLeastOne(b.header.bits);
    TipReplays(c, n, b);
    HeavierMoves(c, g, n, hist, b, now, Work(RulesOf(c, n.magic, g), n.blocks) + BlockWork(b.header.bits));
  }

  lemma TipReplays(c: Crypto, n: Node, b: Block)
    requires Replay(c, n.blocks) == Some(Replayed(n.utxo, n.minted)) && n.minted + CoinbaseValue(b) <= MAX_U64
    ensures Replay(c, n.blocks + [b]).Some?
  {
    ReplayStep(c, n.blocks, b);
  }

  // ---------- the node accepts what it mined ----------

  lemma ReplayedIndicesAreSmall(c: Crypto, magic: U32, chain: seq<Block>)
    requires LawfulChain(c, magic, chain) && Replay(c, chain).Some?
    ensures SmallIndices(Replay(c, chain).value.utxo.outs)
  {
    ReplayIsFlat(c, chain);
    UnspentIndicesAreSmall(c, magic, chain, |chain|);
    assert chain[..|chain|] == chain;
  }

  lemma TipIndicesAreSmall(c: Crypto, g: Block, n: Node, hist: map<Hash, Block>)
    requires Inv(c, g, n, hist)
    ensures SmallIndices(n.utxo.outs)
  {
    ActiveIsLawful(c, g, n, hist);
    ReplayedIndicesAreSmall(c, n.magic, n.blocks);
  }

  lemma SelectionIsNotCoinbase(c: Crypto, n: Node, txs: seq<Transaction>)
    requires SmallIndices(n.utxo.outs) && forall i | 0 <= i < |txs| :: Priced(c, n, txs[i])
    ensures forall i | 0 <= i < |txs| :: !IsCoinbase(txs[i])
  {
    forall i | 0 <= i < |txs| ensures !IsCoinbase(txs[i]) {
      assert Priced(c, n, txs[i]);
      ValidIsNotCoinbase(c, n.utxo, txs[i], n.magic, |n.blocks|);
    }
  }

  lemma CandidateValue(miner: string, pay: U64, height: nat, header: Header, txs: seq<Transaction>)
    ensures CoinbaseValue(Block(header, [Coinbase(miner, pay, height)] + txs, height)) == pay
  {
    var outputs := Coinbase(miner, pay, height).outputs;
    assert outputs[..0] == [];
    assert SumOutputs(outputs) == SumOutputs(outputs[..0]) + pay;
  }

  lemma CandidateBody(c: Crypto, n: Node, b: Block, txs: seq<Transaction>, pay: U64, miner: string)
    requires b.transactions == [Coinbase(miner, pay, |n.blocks|)] + txs && b.height == |n.blocks|
    requires CoinbaseValue(b) == pay
    requires TotalFees(c, n.utxo, txs, n.magic, |n.blocks|) == Ok(ExactFees(c, n.pool, txs))
    requires CheckInOrder(c, n.utxo, txs, n.magic, |n.blocks|).Ok?
    requires pay <= SatAdd(CappedReward(n, |n.blocks|), ExactFees(c, n.pool, txs))
    ensures CheckBody(c, n.magic, Replayed(n.utxo, n.minted), b) == Ok(())
  {
    assert b.transactions[1..] == txs;
  }

  /** Limits a full block must meet. */
  predicate FitsLimits(c: Crypto, b: Block) {
    BlockBytes(c, b) <= MAX_BLOCK_BYTES && UtxoOps(b.transactions) <= MAX_BLOCK_UTXO_OPS
  }

  lemma CandidateStructure(c: Crypto, n: Node, txs: seq<Transaction>, pay: U64, miner: string, now: nat, k: nat)
    requires Numbered(n.blocks) && |txs| <= MAX_SELECTED
    requires var b := Candidate(c, n, txs, pay, miner, now); FitsLimits(c, b) && MeetsTarget(c, HeaderAfter(b.header, k))
    ensures var b := Solved(Candidate(c, n, txs, pay, miner, now), k);
            && ValidateStructure(c, b, TipHash(c, n)) == Ok(()) && b.header.bits == NextBits(n.blocks)
            && b.header.timestamp >= NextTimestamp(n, now) && (k < NONCES ==> b.header.timestamp == NextTimestamp(n, now))
  {
    SearchShape(Candidate(c, n, txs, pay, miner, now).header, k);
  }

  lemma LawfulWhen(c: Crypto, n: Node, b: Block)
    requires Numbered(n.blocks) && Replay(c, n.blocks) == Some(Replayed(n.utxo, n.minted))
    requires ValidateStructure(c, b, TipHash(c, n)) == Ok(()) && b.height == |n.blocks| && b.header.bits == NextBits(n.blocks)
    requires b.header.timestamp > PastMedian(TimestampsOf(n.blocks))
    requires CheckBody(c, n.magic, Replayed(n.utxo, n.minted), b) == Ok(())
    ensures Lawful(c, n.magic, n.blocks, b)
  {
  }

  lemma SelectionChecks(c: Crypto, g: Block, n: Node, hist: map<Hash, Block>, txs: seq<Transaction>)
    requires Inv(c, g, n, hist) && Selectable(c, n, txs) && ExactFees(c, n.pool, txs) <= MAX_U64
    ensures TotalFees(c, n.utxo, txs, n.magic, |n.blocks|) == Ok(ExactFees(c, n.pool, txs))
    ensures CheckInOrder(c, n.utxo, txs, n.magic, |n.blocks|).Ok?
  {
    TipIndicesAreSmall(c, g, n, hist);
    SelectionIsNotCoinbase(c, n, txs);
    FeesAddUp(c, n, txs);
    InOrderHolds(c, n, txs, |txs|);
    assert txs[..|txs|] == txs;
  }

  /** The selection is valid and compatible, its fees fit u64, the coinbase pays no more than reward and fees, the block
      is within the limits, and the search ended at turn `k`. */
  ghost predicate Ready(c: Crypto, n: Node, txs: seq<Transaction>, pay: U64, b: Block, k: nat) {
    && Selectable(c, n, txs) && |txs| <= MAX_SELECTED && ExactFees(c, n.pool, txs) <= MAX_U64
    && pay <= SatAdd(CappedReward(n, |n.blocks|), ExactFees(c, n.pool, txs))
    && FitsLimits(c, b) && MeetsTarget(c, HeaderAfter(b.header, k))
  }

  /** A candidate that is ready is lawful on the tip. */
  lemma CandidateIsLawful(c: Crypto, g: Block, n: Node, hist: map<Hash, Block>, txs: seq<Transaction>, pay: U64,
          miner: string, now: nat, k: nat)
    requires Inv(c, g, n, hist) && Ready(c, n, txs, pay, Candidate(c, n, txs, pay, miner, now), k)
    ensures Lawful(c, n.magic, n.blocks, Solved(Candidate(c, n, txs, pay, miner, now), k))
  {
    var b := Solved(Candidate(c, n, txs, pay, miner, now), k);
    SelectionChecks(c, g, n, hist, txs);
    CandidateValue(miner, pay, |n.blocks|, b.header, txs);
    CandidateBody(c, n, b, txs, pay, miner);
    CandidateStructure(c, n, txs, pay, miner, now, k);
    LawfulWhen(c, n, b);
  }

  /** Everything mining needs of its selection and of the totals: recorded fees and compatible spends, a sum of
      fees and reward that fits u64, and a block within the size limits whose search ended at turn `k`. */
  ghost predicate Minable(c: Crypto, n: Node, ids: seq<Hash>, miner: string, now: nat, k: nat)
    requires Numbered(n.blocks) && InPool(n.pool, ids)
  {
    var txs := Take(c, n.pool, ids, MAX_SELECTED);
    var b := Assemble(c, n, ids, miner, now);
    && CappedReward(n, |n.blocks|) + ExactFees(c, n.pool, txs) <= MAX_U64
    && FitsLimits(c, b) && SolvedAfter(c, b.header, k) && k < NONCES
  }

  lemma SolvedInTime(b: Block, k: nat)
    requires b.header.nonce == 0 && k < NONCES
    ensures Solved(b, k).header.timestamp == b.header.timestamp
  {
    SearchShape(b.header, k);
  }

  function Payment(c: Crypto, n: Node, txs: seq<Transaction>): U64 {
    SatAdd(CappedReward(n, |n.blocks|), SelectedFees(c, n.pool, txs))
  }

  lemma MinedIsReady(c: Crypto, n: Node, ids: seq<Hash>, miner: string, now: nat, k: nat, txs: seq<Transaction>)
    requires Numbered(n.blocks) && InPool(n.pool, ids) && Minable(c, n, ids, miner, now, k)
    requires txs == Take(c, n.pool, ids, MAX_SELECTED) && Selectable(c, n, txs)
    ensures Ready(c, n, txs, Payment(c, n, txs), Assemble(c, n, ids, miner, now), k)
  {
    SaturationIdle(c, n.pool, txs);
  }

  lemma MinedIsLawful(c: Crypto, g: Block, n: Node, hist: map<Hash, Block>, ids: seq<Hash>, miner: string, now: nat,
          k: nat)
    requires Inv(c, g, n, hist) && InPool(n.pool, ids) && Minable(c, n, ids, miner, now, k)
    requires Selectable(c, n, Take(c, n.pool, ids, MAX_SELECTED))
    ensures Lawful(c, n.magic, n.blocks, MineBlock(c, n, ids, miner, now, k))
  {
    var txs := Take(c, n.pool, ids, MAX_SELECTED);
    MinedIsReady(c, n, ids, miner, now, k, txs);
    CandidateIsLawful(c, g, n, hist, txs, Payment(c, n, txs), miner, now, k);
  }

  lemma MinedInTime(c: Crypto, n: Node, ids: seq<Hash>, miner: string, now: nat, k: nat)
    requires Numbered(n.blocks) && InPool(n.pool, ids) && k < NONCES
    ensures MineBlock(c, n, ids, miner, now, k).header.timestamp == NextTimestamp(n, now)
  {
    SolvedInTime(Assemble(c, n, ids, miner, now), k);
  }

  /** Self-acceptance: a node accepts the block it mined on its tip, and the block becomes the tip, provided the
      selection is still valid at its recorded fees and compatible, the block fits the limits, the past
      median lies below now plus two hours, and the running totals fit their types. */
  lemma SelfAcceptance(c: Crypto, g: Block, n: Node, hist: map<Hash, Block>, ids: seq<Hash>, miner: string, now: nat,
          later: nat, k: nat)
    requires Inv(c, g, n, hist) && InPool(n.pool, ids) && Minable(c, n, ids, miner, now, k)
    requires Selectable(c, n, Take(c, n.pool, ids, MAX_SELECTED))
    requires PastMedian(TimestampsOf(n.blocks)) < now + MAX_DRIFT && now <= later
    requires TotalsFit(c, g, n, hist, MineBlock(c, n, ids, miner, now, k))
    ensures var b := MineBlock(c, n, ids, miner, now, k);
            AddBlock(c, n, b, later).result == Ok(()) && AddBlock(c, n, b, later).node.blocks == n.blocks + [b]
  {
    MinedIsLawful(c, g, n, hist, ids, miner, now, k);
    MinedInTime(c, n, ids, miner, now, k);
    ExtendsTip(c, g, n, hist, MineBlock(c, n, ids, miner, now, k), later);
  }

  // ---------- in every run ----------

  /** All transactions of blocks seen, and all submitted ones. */
  ghost function Everything(g: Block, events: seq<Event>): set<Transaction> {
    (set b, t | b in Seen(g, events) && t in b.transactions :: t) + Admissions.Submitted(events)
  }

  lemma TracedNode(c: Crypto, g: Block, n: Node, hist: map<Hash, Block>, seen: set<Block>, s: set<Transaction>)
    requires Inv(c, g, n, hist) && hist.Values <= seen && TxidsDiffer(c, s) && forall b | b in seen :: AllOf(b.transactions, s)
    ensures Admissions.Traced(c, n.utxo, s)
  {
    forall b | b in n.blocks ensures AllOf(b.transactions, s) {
      ActiveIsStored(RulesOf(c, n.magic, g), n.Forest(), hist, b);
    }
    Admissions.TracedReplay(c, n.blocks, s);
  }

  lemma SeenCovered(g: Block, events: seq<Event>)
    ensures forall b | b in Seen(g, events) :: AllOf(b.transactions, Everything(g, events))
  {
    forall b | b in Seen(g, events) ensures AllOf(b.transactions, Everything(g, events)) {
      forall i | 0 <= i < |b.transactions| ensures b.transactions[i] in Everything(g, events) {
        assert b.transactions[i] in b.transactions;
      }
    }
  }

  lemma TracedRun(c: Crypto, magic: U32, g: Block, events: seq<Event>, k: nat)
    requires IsGenesis(c, g) && NoCollisions(c, Seen(g, events)) && k <= |events| && TxidsDiffer(c, Everything(g, events))
    ensures Admissions.Traced(c, Run(c, magic, g, events[..k]).utxo, Everything(g, events))
  {
    var part, seen := events[..k], Seen(g, events);
    AllSeen(g, events);
    forall i | 0 <= i < |part| ensures SeenAt(part[i], seen) { assert part[i] == events[i]; }
    ReachableWithin(c, magic, g, part, seen);
    SeenCovered(g, events);
    TracedNode(c, g, Run(c, magic, g, part), Hist(c, magic, g, part), seen, Everything(g, events));
  }

  /** Both nodes' outputs trace back to transactions whose txids differ. */
  ghost function BothTraced(c: Crypto, s: set<Transaction>): (Node, Node) -> bool {
    (m: Node, n: Node) => Admissions.Traced(c, m.utxo, s) && Admissions.Traced(c, n.utxo, s) && TxidsDiffer(c, s)
  }

  /** `m` priced the transaction that `n` holds under `id`. */
  ghost predicate PricedThen(c: Crypto, m: Node, n: Node, id: Hash) {
    && Numbered(m.blocks) && m.magic == n.magic
    && id in n.pool.txs && Txid(c, n.pool.txs[id]) == id
    && TipPrice(c, m, n.pool.txs[id]) == Ok(FeeFor(n.pool, id))
  }

  lemma PricedNow(c: Crypto, m: Node, n: Node, id: Hash, s: set<Transaction>)
    requires BothTraced(c, s)(m, n) && PricedThen(c, m, n, id) && Admissions.Unspent(n.utxo, n.pool.txs[id].inputs)
    ensures Priced(c, n, n.pool.txs[id]) <==> Admissions.RipeAt(n.utxo, n.pool.txs[id].inputs, |n.blocks|)
  {
    Admissions.ValidAgain(c, m.utxo, n.utxo, n.pool.txs[id], n.magic, m.blocks[|m.blocks| - 1].height, |n.blocks|,
                          FeeFor(n.pool, id), s);
  }

  ghost predicate TracedAt(c: Crypto, magic: U32, g: Block, events: seq<Event>, k: nat, s: set<Transaction>)
    requires g.height == 0 && k <= |events|
  {
    Admissions.Traced(c, Run(c, magic, g, events[..k]).utxo, s)
  }

  lemma TracedAlways(c: Crypto, magic: U32, g: Block, events: seq<Event>)
    requires IsGenesis(c, g) && NoCollisions(c, Seen(g, events)) && TxidsDiffer(c, Everything(g, events))
    ensures forall k | 0 <= k <= |events| :: TracedAt(c, magic, g, events, k, Everything(g, events))
  {
    forall k | 0 <= k <= |events| ensures TracedAt(c, magic, g, events, k, Everything(g, events)) {
      TracedRun(c, magic, g, events, k);
    }
  }

  lemma BothTracedAt(c: Crypto, magic: U32, g: Block, events: seq<Event>, k: nat, s: set<Transaction>)
    requires g.height == 0 && k <= |events| && TxidsDiffer(c, s) && forall j | 0 <= j <= |events| :: TracedAt(c, magic, g, events, j, s)
    ensures BothTraced(c, s)(Run(c, magic, g, events[..k]), Run(c, magic, g, events))
  {
    assert TracedAt(c, magic, g, events, k, s) && TracedAt(c, magic, g, events, |events|, s);
    assert events[..|events|] == events;
  }

  lemma TracedThen(c: Crypto, magic: U32, g: Block, events: seq<Event>, k: nat)
    requires IsGenesis(c, g) && NoCollisions(c, Seen(g, events)) && TxidsDiffer(c, Everything(g, events)) && k <= |events|
    ensures BothTraced(c, Everything(g, events))(Run(c, magic, g, events[..k]), Run(c, magic, g, events))
  {
    TracedAlways(c, magic, g, events);
    BothTracedAt(c, magic, g, events, k, Everything(g, events));
  }

  lemma AdmittedWhen(c: Crypto, magic: U32, g: Block, events: seq<Event>, id: Hash) returns (k: nat)
    requires g.height == 0 && TxidsDiffer(c, Everything(g, events)) && id in Run(c, magic, g, events).pool.txs
    ensures k <= |events| && PricedThen(c, Run(c, magic, g, events[..k]), Run(c, magic, g, events), id)
  {
    var n := Run(c, magic, g, events);
    SubmittedDiffer(c, g, events);
    Admissions.FeesAreVouched(c, magic, g, events);
    var j :| 0 <= j < |events| && Admissions.SubmittedAt(c, magic, g, events, j, n.pool.txs[id], FeeFor(n.pool, id));
    k := j;
  }

  /** In every run, and whatever reorganisations it went through, a pool entry whose inputs are unspent is valid on the next
      block at its recorded fee exactly when the outputs it spends are mature and unlocked at that height. */
  lemma EntryIsPriced(c: Crypto, magic: U32, g: Block, events: seq<Event>, id: Hash)
    requires IsGenesis(c, g) && NoCollisions(c, Seen(g, events)) && TxidsDiffer(c, Everything(g, events))
    requires id in Run(c, magic, g, events).pool.txs
    requires Admissions.Unspent(Run(c, magic, g, events).utxo, Run(c, magic, g, events).pool.txs[id].inputs)
    ensures var n := Run(c, magic, g, events);
            Priced(c, n, n.pool.txs[id]) <==> Admissions.RipeAt(n.utxo, n.pool.txs[id].inputs, |n.blocks|)
  {
    var k := AdmittedWhen(c, magic, g, events, id);
    TracedThen(c, magic, g, events, k);
    PricedNow(c, Run(c, magic, g, events[..k]), Run(c, magic, g, events), id, Everything(g, events));
  }

  lemma SubmittedDiffer(c: Crypto, g: Block, events: seq<Event>)
    requires TxidsDiffer(c, Everything(g, events))
    ensures TxidsDiffer(c, Admissions.Submitted(events))
  {
  }

  /** The outputs the selection spends are unspent, mature and unlocked for the next block. */
  ghost predicate SelectionRipe(c: Crypto, n: Node, ids: seq<Hash>)
    requires InPool(n.pool, ids)
  {
    var txs := Take(c, n.pool, ids, MAX_SELECTED);
    forall i | 0 <= i < |txs| :: Admissions.RipeAt(n.utxo, txs[i].inputs, |n.blocks|)
  }

  lemma SelectedEntry(c: Crypto, n: Node, ids: seq<Hash>, i: nat) returns (id: Hash)
    requires InPool(n.pool, ids) && SelectionRipe(c, n, ids) && i < |Take(c, n.pool, ids, MAX_SELECTED)|
    ensures id in n.pool.txs && n.pool.txs[id] == Take(c, n.pool, ids, MAX_SELECTED)[i]
    ensures Admissions.Unspent(n.utxo, n.pool.txs[id].inputs)
    ensures Admissions.RipeAt(n.utxo, n.pool.txs[id].inputs, |n.blocks|)
  {
    id := TakeIds(c, n.pool, ids, MAX_SELECTED)[i];
    assert Admissions.RipeAt(n.utxo, Take(c, n.pool, ids, MAX_SELECTED)[i].inputs, |n.blocks|);
    RipeIsUnspent(n, n.pool.txs[id].inputs);
  }

  lemma RipeIsUnspent(n: Node, inputs: seq<TxInput>)
    requires Admissions.RipeAt(n.utxo, inputs, |n.blocks|)
    ensures Admissions.Unspent(n.utxo, inputs)
  {
    forall i | 0 <= i < |inputs| ensures Spent(inputs[i]) in n.utxo.outs {
      assert Admissions.RipeInput(n.utxo, inputs[i], |n.blocks|);
    }
  }

  lemma SelectionIsPriced(c: Crypto, magic: U32, g: Block, events: seq<Event>, ids: seq<Hash>, i: nat)
    requires IsGenesis(c, g) && NoCollisions(c, Seen(g, events)) && TxidsDiffer(c, Everything(g, events))
    requires var n := Run(c, magic, g, events);
             InPool(n.pool, ids) && SelectionRipe(c, n, ids) && i < |Take(c, n.pool, ids, MAX_SELECTED)|
    ensures var n := Run(c, magic, g, events); Priced(c, n, Take(c, n.pool, ids, MAX_SELECTED)[i])
  {
    var id := SelectedEntry(c, Run(c, magic, g, events), ids, i);
    EntryIsPriced(c, magic, g, events, id);
  }

  lemma SelectionIsSelectable(c: Crypto, magic: U32, g: Block, events: seq<Event>, ids: seq<Hash>)
    requires IsGenesis(c, g) && NoCollisions(c, Seen(g, events)) && TxidsDiffer(c, Everything(g, events))
    requires var n := Run(c, magic, g, events);
             InPool(n.pool, ids) && SelectionRipe(c, n, ids) && Compatible(c, n, Take(c, n.pool, ids, MAX_SELECTED))
    ensures var n := Run(c, magic, g, events); Selectable(c, n, Take(c, n.pool, ids, MAX_SELECTED))
  {
    var n := Run(c, magic, g, events);
    var txs := Take(c, n.pool, ids, MAX_SELECTED);
    forall i | 0 <= i < |txs| ensures Priced(c, n, txs[i]) {
      SelectionIsPriced(c, magic, g, events, ids, i);
    }
  }

  /** The running totals still fit after this block, and its hash is new. */
  ghost predicate TotalsFit(c: Crypto, g: Block, n: Node, hist: map<Hash, Block>, b: Block) {
    && BlockHash(c, b) !in hist && n.minted + CoinbaseValue(b) <= MAX_U64
    && Work(RulesOf(c, n.magic, g), n.blocks) + BlockWork(b.header.bits) <= MAX_U128
  }

  /** In every run, a node that mines on its tip accepts its own block as the new tip, provided the selection's outputs are
      unspent, mature and unlocked: recorded fees are then right, because every entry was validated on admission. */
  lemma MinesItsOwnTip(c: Crypto, magic: U32, g: Block, events: seq<Event>, ids: seq<Hash>, miner: string, now: nat,
          later: nat, k: nat)
    requires IsGenesis(c, g) && NoCollisions(c, Seen(g, events)) && TxidsDiffer(c, Everything(g, events))
    requires var n := Run(c, magic, g, events);
             && InPool(n.pool, ids) && SelectionRipe(c, n, ids) && Compatible(c, n, Take(c, n.pool, ids, MAX_SELECTED))
             && Minable(c, n, ids, miner, now, k)
             && PastMedian(TimestampsOf(n.blocks)) < now + MAX_DRIFT && now <= later
             && TotalsFit(c, g, n, Hist(c, magic, g, events), MineBlock(c, n, ids, miner, now, k))
    ensures var n := Run(c, magic, g, events);
            var b := MineBlock(c, n, ids, miner, now, k);
            AddBlock(c, n, b, later).result == Ok(()) && AddBlock(c, n, b, later).node.blocks == n.blocks + [b]
  {
    SelectionIsSelectable(c, magic, g, events, ids);
    Reachable(c, magic, g, events);
    SelfAcceptance(c, g, Run(c, magic, g, events), Hist(c, magic, g, events), ids, miner, now, later, k);
  }
}

/** Block templates handed to external miners and the blocks they return (`get_block_template` and `submit_block` of
    src/rpc/methods.rs). */
module MiningService {
  import opened Basics
  import opened Transactions
  import opened Blocks
  import opened Targets
  import opened Timestamps
  import opened Emission
  import opened Pools
  import opened Nodes
  import opened Invariant
  import opened Mining

  /** What a miner is given; `height` is that of the tip. */
  datatype Template = Template(version: U32, prevHash: Hash, merkleRoot: Hash, timestamp: nat, bits: U32, height: nat,
          reward: U64)

  /** What a miner sends back. */
  datatype Work = Work(version: U32, prevHash: Hash, merkleRoot: Hash, timestamp: nat, bits: U32, nonce: U64,
          height: nat, miner: string)

  datatype Reply = Reply(node: Node, hash: Hash, error: Option<Error>)

  /** The template's block: its coinbase pays the reward alone. */
  function Offered(c: Crypto, n: Node, ids: seq<Hash>, miner: string, now: nat): Block
    requires Numbered(n.blocks) && InPool(n.pool, ids)
  {
    Candidate(c, n, Take(c, n.pool, ids, MAX_SELECTED), CappedReward(n, |n.blocks|), miner, now)
  }

  function GetTemplate(c: Crypto, n: Node, ids: seq<Hash>, miner: string, now: nat): Template
    requires Numbered(n.blocks) && InPool(n.pool, ids)
  {
    var h := Offered(c, n, ids, miner, now).header;
    Template(h.version, h.prevHash, h.merkleRoot, h.timestamp, h.bits, |n.blocks| - 1, CappedReward(n, |n.blocks|))
  }

  function HeaderOf(w: Work): Header { Header(w.version, w.prevHash, w.merkleRoot, w.timestamp, w.bits, w.nonce) }

  /** The submitted header over the body rebuilt from the node's own pool. */
  function Rebuilt(c: Crypto, n: Node, ids: seq<Hash>, w: Work): Block
    requires InPool(n.pool, ids)
  {
    var height := w.height + 1;
    Block(HeaderOf(w), [Coinbase(w.miner, CappedReward(n, height), height)] + Take(c, n.pool, ids, MAX_SELECTED), height)
  }

  /** `submit_block`: proof of work, height, the body rebuilt from the node's own pool, then `add_block`. */
  function SubmitBlock(c: Crypto, n: Node, ids: seq<Hash>, w: Work, now: nat): Reply
    requires Numbered(n.blocks) && InPool(n.pool, ids)
  {
    var header := HeaderOf(w);
    var hash := HeaderHash(c, header);
    if !MeetsTarget(c, header) then Reply(n, hash, Some(TargetMissed))
    else if w.height != n.blocks[|n.blocks| - 1].height then Reply(n, hash, Some(StaleTemplate))
    else
      var b := Rebuilt(c, n, ids, w);
      if MerkleRoot(c, b.transactions) != w.merkleRoot then Reply(n, hash, Some(StaleTemplate))
      else
        var s := AddBlock(c, n, b, now);
        Reply(s.node, hash, if s.result.Err? then Some(s.result.error) else None)
  }

  /** The header carries its proof of work, names the current tip height and commits to the rebuilt body. */
  predicate Current(c: Crypto, n: Node, w: Work, b: Block) {
    && FromBe(c.hash256(c.headerBytes(HeaderOf(w)))) <= TargetValue(w.bits)
    && w.height + 1 == |n.blocks| && w.merkleRoot == MerkleRoot(c, b.transactions)
  }

  /** The reply reports the outcome of `add_block`. */
  predicate Judged(r: Reply, s: Step) {
    r.node == s.node && r.error == if s.result.Err? then Some(s.result.error) else None
  }

  /** What a submission means: unless it is current, nothing happens and an error is returned; otherwise the node judges the
      block with that header over the body it would build now. */
  lemma SubmissionMeans(c: Crypto, n: Node, ids: seq<Hash>, w: Work, now: nat, b: Block)
    requires Numbered(n.blocks) && InPool(n.pool, ids) && b == Rebuilt(c, n, ids, w)
    ensures var r := SubmitBlock(c, n, ids, w, now);
            if Current(c, n, w, b) then Judged(r, AddBlock(c, n, b, now)) else r.node == n && r.error.Some?
  {
    WorkIsNumeric(c, HeaderOf(w));
    SubmitCases(c, n, ids, w, now, b);
  }

  lemma SubmitCases(c: Crypto, n: Node, ids: seq<Hash>, w: Work, now: nat, b: Block)
    requires Numbered(n.blocks) && InPool(n.pool, ids) && b == Rebuilt(c, n, ids, w)
    ensures var r := SubmitBlock(c, n, ids, w, now);
            if MeetsTarget(c, HeaderOf(w)) && w.height + 1 == |n.blocks| && w.merkleRoot == MerkleRoot(c, b.transactions)
            then Judged(r, AddBlock(c, n, b, now))
            else r.node == n && r.error.Some?
  {
  }

  /** That block: a coinbase that pays what is left of the reward to the miner, then the best 500 of the pool. */
  lemma RebuiltPays(c: Crypto, n: Node, ids: seq<Hash>, w: Work)
    requires InPool(n.pool, ids)
    ensures var b := Rebuilt(c, n, ids, w);
            var left := if n.minted <= MAX_SUPPLY then MAX_SUPPLY - n.minted else 0;
            && b.header == HeaderOf(w) && b.height == w.height + 1
            && b.transactions[1..] == Take(c, n.pool, ids, 500) && |b.transactions[0].outputs| == 1
            && b.transactions[0].outputs[0].value == Min(BlockReward(w.height + 1), left)
            && b.transactions[0].outputs[0].EffectiveScript() == P2PKH(w.miner)
  {
    var b := Rebuilt(c, n, ids, w);
    assert b.transactions[1..] == Take(c, n.pool, ids, MAX_SELECTED);
  }

  /** The template's fields with a nonce filled in. */
  function Answer(t: Template, nonce: U64, miner: string): Work {
    Work(t.version, t.prevHash, t.merkleRoot, t.timestamp, t.bits, nonce, t.height, miner)
  }

  /** While the node is unchanged, a solved template is never taken for stale: the body rebuilt on submission is the
      template's, transaction for transaction, however the pool's map iterates each time; the node then
      judges exactly the template's block with the nonce filled in. */
  lemma TemplateAgrees(c: Crypto, n: Node, ids: seq<Hash>, other: seq<Hash>, miner: string, asked: nat, now: nat,
          nonce: U64)
    requires Numbered(n.blocks) && Lists(n.pool, ids) && Lists(n.pool, other) && Transitive(c, n.pool)
    requires MeetsTarget(c, Offered(c, n, ids, miner, asked).header.(nonce := nonce))
    ensures var b := Offered(c, n, ids, miner, asked);
            var s := AddBlock(c, n, b.(header := b.header.(nonce := nonce)), now);
            SubmitBlock(c, n, other, Answer(GetTemplate(c, n, ids, miner, asked), nonce, miner), now) ==
            Reply(s.node, HeaderHash(c, b.header.(nonce := nonce)), if s.result.Err? then Some(s.result.error) else None)
  {
    TakeIsDetermined(c, n.pool, ids, other, MAX_SELECTED);
  }

  lemma FilledIn(b: Block, nonce: U64)
    requires b.header.nonce == 0
    ensures Solved(b, nonce) == b.(header := b.header.(nonce := nonce))
  {
    SearchShape(b.header, nonce);
  }

  lemma OfferedBecomesTip(c: Crypto, g: Block, n: Node, hist: map<Hash, Block>, ids: seq<Hash>, miner: string,
          asked: nat, now: nat, nonce: U64)
    requires Inv(c, g, n, hist) && InPool(n.pool, ids)
    requires Ready(c, n, Take(c, n.pool, ids, MAX_SELECTED), CappedReward(n, |n.blocks|), Offered(c, n, ids, miner, asked), nonce)
    requires PastMedian(TimestampsOf(n.blocks)) < asked + MAX_DRIFT && asked <= now
    requires TotalsFit(c, g, n, hist, Solved(Offered(c, n, ids, miner, asked), nonce))
    ensures var b := Solved(Offered(c, n, ids, miner, asked), nonce);
            AddBlock(c, n, b, now).result == Ok(()) && AddBlock(c, n, b, now).node.blocks == n.blocks + [b]
  {
    FilledIn(Offered(c, n, ids, miner, asked), nonce);
    CandidateIsLawful(c, g, n, hist, Take(c, n.pool, ids, MAX_SELECTED), CappedReward(n, |n.blocks|), miner, asked, nonce);
    ExtendsTip(c, g, n, hist, Solved(Offered(c, n, ids, miner, asked), nonce), now);
  }

  /** A template whose selection is ready, solved and submitted to the unchanged node, becomes the tip. */
  lemma TemplateAccepted(c: Crypto, g: Block, n: Node, hist: map<Hash, Block>, ids: seq<Hash>, other: seq<Hash>,
          miner: string, asked: nat, now: nat, nonce: U64)
    requires Inv(c, g, n, hist) && Lists(n.pool, ids) && Lists(n.pool, other) && Transitive(c, n.pool)
    requires Ready(c, n, Take(c, n.pool, ids, MAX_SELECTED), CappedReward(n, |n.blocks|), Offered(c, n, ids, miner, asked), nonce)
    requires PastMedian(TimestampsOf(n.blocks)) < asked + MAX_DRIFT && asked <= now
    requires TotalsFit(c, g, n, hist, Solved(Offered(c, n, ids, miner, asked), nonce))
    ensures var r := SubmitBlock(c, n, other, Answer(GetTemplate(c, n, ids, miner, asked), nonce, miner), now);
            r.error == None && r.node.blocks == n.blocks + [Solved(Offered(c, n, ids, miner, asked), nonce)]
  {
    OfferedBecomesTip(c, g, n, hist, ids, miner, asked, now, nonce);
    FilledIn(Offered(c, n, ids, miner, asked), nonce);
    TemplateAgrees(c, n, ids, other, miner, asked, now, nonce);
  }
}
