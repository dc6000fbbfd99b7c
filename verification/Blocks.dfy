/** Blocks, their structural validation and the rules a block must meet on top of its branch
    (src/blockchain/block.rs and the validation half of src/blockchain/chain.rs). */
module Blocks {
  import opened Basics
  import opened Transactions
  import opened Ledger
  import opened Targets
  import opened Timestamps
  import opened Retargeting
  import opened Emission
  import Merkle

  const MAX_BLOCK_TRANSACTIONS: nat := 10_000
  const MAX_BLOCK_BYTES: nat := 4 * 1024 * 1024
  const MAX_BLOCK_UTXO_OPS: nat := 50_000
  const MAX_COINBASE_OUTPUTS: nat := 16

  datatype Block = Block(header: Header, transactions: seq<Transaction>, height: nat)

  function HeaderHash(c: Crypto, header: Header): Hash { Hex(c.hash256(c.headerBytes(header))) }

  function BlockHash(c: Crypto, b: Block): Hash { HeaderHash(c, b.header) }

  predicate MeetsTarget(c: Crypto, header: Header) {
    LexLe(c.hash256(c.headerBytes(header)), Target(header.bits))
  }

  /** The proof of work, in numbers: the hash of the header, read most significant byte first, is at most the target. */
  lemma WorkIsNumeric(c: Crypto, header: Header)
    ensures MeetsTarget(c, header) <==> FromBe(c.hash256(c.headerBytes(header))) <= TargetValue(header.bits)
  {
    LexIsNumeric(c.hash256(c.headerBytes(header)), Target(header.bits));
    TargetReads(header.bits);
  }

  /** `meets_target`: expand the bits, then compare byte by byte. */
  method CheckTarget(c: Crypto, header: Header) returns (ok: bool)
    ensures ok == MeetsTarget(c, header)
    ensures ok <==> FromBe(c.hash256(c.headerBytes(header))) <= TargetValue(header.bits)
  {
    var target := BitsToTarget(header.bits);
    ok := HashLeTarget(c.hash256(c.headerBytes(header)), target[..]);
    TargetReads(header.bits);
    WorkIsNumeric(c, header);
  }

  function Serialized(c: Crypto, txs: seq<Transaction>): (r: seq<Bytes>)
    ensures |r| == |txs|
  {
    seq(|txs|, i requires 0 <= i < |txs| => c.serialize(txs[i]))
  }

  function MerkleRoot(c: Crypto, txs: seq<Transaction>): Hash {
    if txs == [] then ZERO_HASH else Hex(Merkle.Root(c.hash256, Serialized(c, txs)))
  }

  function UtxoOps(txs: seq<Transaction>): nat {
    if txs == [] then 0
    else UtxoOps(txs[..|txs| - 1]) + |txs[|txs| - 1].inputs| + |txs[|txs| - 1].outputs|
  }

  function TxBytes(c: Crypto, txs: seq<Transaction>): nat {
    if txs == [] then 0 else TxBytes(c, txs[..|txs| - 1]) + TxSize(c, txs[|txs| - 1])
  }

  /** Serialised size: fixed-width header fields, two length-prefixed strings, the transactions, the height. */
  function BlockBytes(c: Crypto, b: Block): nat {
    56 + |c.textBytes(b.header.prevHash)| + |c.textBytes(b.header.merkleRoot)| + TxBytes(c, b.transactions)
  }

  /** `Block::validate`. */
  function ValidateStructure(c: Crypto, b: Block, prevHash: Hash): Result<()> {
    if b.header.prevHash != prevHash then Err(PrevHashMismatch)
    else if !MeetsTarget(c, b.header) then Err(TargetMissed)
    else if b.transactions == [] then Err(NoTransactions)
    else if |b.transactions| > MAX_BLOCK_TRANSACTIONS then Err(TooManyTransactions)
    else if BlockBytes(c, b) > MAX_BLOCK_BYTES then Err(TooManyBytes)
    else if UtxoOps(b.transactions) > MAX_BLOCK_UTXO_OPS then Err(TooManyUtxoOps)
    else if !IsCoinbase(b.transactions[0]) then Err(FirstNotCoinbase)
    else if MerkleRoot(c, b.transactions) != b.header.merkleRoot then Err(MerkleMismatch)
    else Ok(())
  }

  /** Spends and creations add up over any split of the list. */
  lemma {:induction false} OpsAdd(a: seq<Transaction>, b: seq<Transaction>)
    ensures UtxoOps(a + b) == UtxoOps(a) + UtxoOps(b)
    ensures |b| == 1 ==> UtxoOps(b) == |b[0].inputs| + |b[0].outputs|
    decreases |b|
  {
    if b == [] {
      assert a + b == a;
    } else {
      OpsAdd(a, b[..|b| - 1]);
      assert (a + b)[..|a + b| - 1] == a + b[..|b| - 1];
    }
  }

  /** So do the bytes. */
  lemma {:induction false} BytesAdd(c: Crypto, a: seq<Transaction>, b: seq<Transaction>)
    ensures TxBytes(c, a + b) == TxBytes(c, a) + TxBytes(c, b)
    ensures |b| == 1 ==> TxBytes(c, b) == |c.serialize(b[0])|
    decreases |b|
  {
    if b == [] {
      assert a + b == a;
    } else {
      BytesAdd(c, a, b[..|b| - 1]);
      assert (a + b)[..|a + b| - 1] == a + b[..|b| - 1];
    }
  }

  // ---------- a branch and what it implies ----------

  function TimestampsOf(chain: seq<Block>): (r: seq<nat>)
    ensures |r| == |chain|
  {
    seq(|chain|, i requires 0 <= i < |chain| => chain[i].header.timestamp)
  }

  /** A branch as `chain_to_hash` delivers it: the block at index i has height i. */
  predicate Numbered(chain: seq<Block>) {
    chain != [] && forall i | 0 <= i < |chain| :: chain[i].height == i
  }

  /** `next_bits_for_blocks`: a retarget every 2016 blocks, from medians at both ends of the period. */
  function NextBits(chain: seq<Block>): U32
    requires Numbered(chain)
  {
    var tip := chain[|chain| - 1];
    var height := |chain|;
    if height % INTERVAL != 0 then tip.header.bits
    else
      var ts := TimestampsOf(chain);
      var start := height - INTERVAL;
      AdjustDifficulty(tip.header.bits,
                       ts[SatSub(start, 5)..Min(start + 6, |ts|)],
                       ts[SatSub(|ts|, 11)..])
  }

  /** Coinbase output total, saturated to u64::MAX when it overflows. */
  function CoinbaseValue(b: Block): nat {
    if b.transactions == [] then 0 else Min(SumOutputs(b.transactions[0].outputs), MAX_U64)
  }

  datatype Replayed = Replayed(utxo: Utxos, minted: nat)

  /** One more block on a replayed branch, unless its minted total leaves u64. */
  function Advance(c: Crypto, r: Option<Replayed>, b: Block): Option<Replayed> {
    if r.None? || r.value.minted + CoinbaseValue(b) > MAX_U64 then None
    else Some(Replayed(ApplyAll(c, r.value.utxo, b.transactions), r.value.minted + CoinbaseValue(b)))
  }

  /** Replaying a branch from genesis: unspent outputs and minted total, if the total stays in u64. */
  function Replay(c: Crypto, chain: seq<Block>): Option<Replayed> {
    if chain == [] then Some(Replayed(EMPTY_UTXOS, 0))
    else Advance(c, Replay(c, chain[..|chain| - 1]), chain[|chain| - 1])
  }

  lemma ReplayStep(c: Crypto, chain: seq<Block>, b: Block)
    ensures Replay(c, chain + [b]) == Advance(c, Replay(c, chain), b)
  {
    assert (chain + [b])[..|chain|] == chain;
  }

  lemma ReplayNext(c: Crypto, chain: seq<Block>, i: nat)
    requires i < |chain|
    ensures Replay(c, chain[..i + 1]) == Advance(c, Replay(c, chain[..i]), chain[i])
  {
    ReplayStep(c, chain[..i], chain[i]);
    assert chain[..i] + [chain[i]] == chain[..i + 1];
  }

  lemma Advances(c: Crypto, r: Replayed, b: Block)
    ensures r.minted + CoinbaseValue(b) > MAX_U64 ==> Advance(c, Some(r), b) == None
    ensures r.minted + CoinbaseValue(b) <= MAX_U64 ==>
            Advance(c, Some(r), b) == Some(Replayed(ApplyAll(c, r.utxo, b.transactions), r.minted + CoinbaseValue(b)))
  {
  }

  /** Everything the coinbases of a branch claim, each saturated to u64::MAX. */
  function Claimed(chain: seq<Block>): nat {
    if chain == [] then 0
    else
      var txs := chain[|chain| - 1].transactions;
      Claimed(chain[..|chain| - 1]) + if txs == [] then 0 else Min(SumOutputs(txs[0].outputs), MAX_U64)
  }

  /** The minted total is the sum of all claims, and a branch replays exactly when that sum fits u64. */
  lemma {:induction false} MintedExactly(c: Crypto, chain: seq<Block>)
    ensures Replay(c, chain).Some? <==> Claimed(chain) <= MAX_U64
    ensures Replay(c, chain).Some? ==> Replay(c, chain).value.minted == Claimed(chain)
  {
    if chain != [] { MintedExactly(c, chain[..|chain| - 1]); }
  }

  // ---------- coinbase and transactions against a branch ----------

  /** One more fee on the running total, or the first failure. */
  function AddFee(total: Result<nat>, fee: Result<nat>): Result<nat> {
    if total.Err? then total
    else if fee.Err? then fee
    else if total.value + fee.value > MAX_U64 then Err(FeesOverflow)
    else Ok(total.value + fee.value)
  }

  /** Fees of `txs`, all priced against the same unspent outputs. */
  function TotalFees(c: Crypto, u: Utxos, txs: seq<Transaction>, magic: U32, height: nat): Result<nat> {
    if txs == [] then Ok(0)
    else AddFee(TotalFees(c, u, txs[..|txs| - 1], magic, height), ValidateTx(c, u, txs[|txs| - 1], magic, height))
  }

  function AllowedReward(height: nat, minted: nat, fees: nat): nat {
    SatAdd(Min(BlockReward(height), SatSub(MAX_SUPPLY, minted)), fees)
  }

  /** `validate_coinbase_subsidy_with_state`. */
  function CheckSubsidy(c: Crypto, magic: U32, r: Replayed, b: Block): Result<()>
    requires b.transactions != []
  {
    if |b.transactions[0].outputs| > MAX_COINBASE_OUTPUTS then Err(TooManyCoinbaseOutputs)
    else
      var fees := TotalFees(c, r.utxo, b.transactions[1..], magic, b.height);
      if fees.Err? then Err(fees.error)
      else if CoinbaseValue(b) > AllowedReward(b.height, r.minted, fees.value) then Err(ExcessiveCoinbase)
      else Ok(())
  }

  /** Each transaction validated against the outputs left by those before it. */
  function CheckInOrder(c: Crypto, u: Utxos, txs: seq<Transaction>, magic: U32, height: nat): Result<Utxos> {
    if txs == [] then Ok(u)
    else
      var before := CheckInOrder(c, u, txs[..|txs| - 1], magic, height);
      if before.Err? then before
      else
        var fee := ValidateTx(c, before.value, txs[|txs| - 1], magic, height);
        if fee.Err? then Err(fee.error) else Ok(Apply(c, before.value, txs[|txs| - 1]))
  }

  function CheckBody(c: Crypto, magic: U32, r: Replayed, b: Block): Result<()>
    requires b.transactions != []
  {
    var subsidy := CheckSubsidy(c, magic, r, b);
    if subsidy.Err? then subsidy
    else
      var applied := CheckInOrder(c, r.utxo, b.transactions[1..], magic, b.height);
      if applied.Err? then Err(applied.error) else Ok(())
  }

  /** The rules of `validate_block_against_parent` after the height check, in a given branch context. */
  function ValidateInContext(c: Crypto, magic: U32, chain: seq<Block>, r: Replayed, b: Block, now: nat): Result<()>
    requires Numbered(chain) && b.transactions != []
  {
    if b.header.bits != NextBits(chain) then Err(BitsMismatch)
    else if !ValidTimestamp(b.header.timestamp, PastMedian(TimestampsOf(chain)), now) then Err(TimestampOutOfRange)
    else CheckBody(c, magic, r, b)
  }

  /** Everything about a block that its branch decides, with no reference to the clock. */
  predicate Lawful(c: Crypto, magic: U32, chain: seq<Block>, b: Block) {
    && Numbered(chain)
    && ValidateStructure(c, b, BlockHash(c, chain[|chain| - 1])).Ok?
    && b.height == |chain|
    && Replay(c, chain).Some?
    && b.header.bits == NextBits(chain)
    && b.header.timestamp > PastMedian(TimestampsOf(chain))
    && CheckBody(c, magic, Replay(c, chain).value, b).Ok?
  }

  /** `genesis_block_with_bits`, up to the mined nonce. */
  predicate IsGenesis(c: Crypto, g: Block) {
    && g.height == 0
    && g.transactions == [Coinbase(Repeat('0', 40), BlockReward(0), 0)]
    && g.header.version == 1 && g.header.prevHash == ZERO_HASH
    && g.header.merkleRoot == MerkleRoot(c, g.transactions)
    && MeetsTarget(c, g.header)
  }

  ghost function LawfulStep(c: Crypto, magic: U32): (seq<Block>, Block) -> bool {
    (chain, b) => Lawful(c, magic, chain, b)
  }

  /** A branch every block of which is lawful on top of the blocks before it. */
  ghost predicate LawfulChain(c: Crypto, magic: U32, chain: seq<Block>) {
    chain != [] && IsGenesis(c, chain[0]) && Stepwise(LawfulStep(c, magic), chain)
  }

  lemma LawfulAt(c: Crypto, magic: U32, chain: seq<Block>, i: nat)
    requires LawfulChain(c, magic, chain) && 1 <= i < |chain|
    ensures Lawful(c, magic, chain[..i], chain[i])
  {
    assert LawfulStep(c, magic)(chain[..i], chain[i]);
  }

  lemma LawfulHeight(c: Crypto, magic: U32, chain: seq<Block>, b: Block)
    requires Lawful(c, magic, chain, b)
    ensures Numbered(chain) && b.height == |chain| && b.header.prevHash == BlockHash(c, chain[|chain| - 1])
    ensures b.header.bits == NextBits(chain)
    ensures b.header.timestamp > PastMedian(TimestampsOf(chain))
  {
  }

  lemma LawfulNumbered(c: Crypto, magic: U32, chain: seq<Block>)
    requires LawfulChain(c, magic, chain)
    ensures Numbered(chain)
  {
    forall i | 1 <= i < |chain| ensures chain[i].height == i {
      LawfulAt(c, magic, chain, i);
      LawfulHeight(c, magic, chain[..i], chain[i]);
    }
  }

  // ---------- a header commits to one transaction list ----------

  /** Lower bounds of the bincode layout: fixed fields of a transaction, of an input and of an output. */
  ghost predicate BincodeLayout(c: Crypto) {
    forall tx: Transaction :: (tx.inputs == [] && tx.outputs == [] ==> |c.serialize(tx)| == 28)
                              && |c.serialize(tx)| >= 28 + 60 * |tx.inputs| + 17 * |tx.outputs|
  }

  lemma {:induction false} ValidInOrder(c: Crypto, u: Utxos, txs: seq<Transaction>, magic: U32, height: nat,
          i: nat) returns (v: Utxos, fee: nat)
    requires CheckInOrder(c, u, txs, magic, height).Ok? && i < |txs|
    ensures CheckInOrder(c, u, txs[..i], magic, height) == Ok(v)
    ensures ValidateTx(c, v, txs[i], magic, height) == Ok(fee)
    decreases |txs|
  {
    var n := |txs| - 1;
    if i == n {
      v := CheckInOrder(c, u, txs[..n], magic, height).value;
      fee := ValidateTx(c, v, txs[n], magic, height).value;
    } else {
      v, fee := ValidInOrder(c, u, txs[..n], magic, height, i);
      assert txs[..n][..i] == txs[..i];
    }
  }

  lemma {:induction false} ValidAgainstParent(c: Crypto, u: Utxos, txs: seq<Transaction>, magic: U32, height: nat, i: nat)
    requires TotalFees(c, u, txs, magic, height).Ok? && i < |txs|
    ensures ValidateTx(c, u, txs[i], magic, height).Ok?
    decreases |txs|
  {
    if i < |txs| - 1 {
      ValidAgainstParent(c, u, txs[..|txs| - 1], magic, height, i);
    }
  }

  lemma InputlessIsEmpty(c: Crypto, u: Utxos, tx: Transaction, magic: U32, height: nat, fee: nat)
    requires ValidateTx(c, u, tx, magic, height) == Ok(fee) && tx.inputs == []
    ensures tx.outputs == []
  {
    ValidMeaning(c, u, tx, magic, height, fee);
  }

  lemma LaterInputless(c: Crypto, u: Utxos, txs: seq<Transaction>, magic: U32, height: nat, i: nat)
    requires CheckInOrder(c, u, txs, magic, height).Ok? && i < |txs| && txs[i].inputs == []
    ensures txs[i].outputs == []
  {
    var v, fee := ValidInOrder(c, u, txs, magic, height, i);
    InputlessIsEmpty(c, v, txs[i], magic, height, fee);
  }

  lemma BodyInOrder(c: Crypto, magic: U32, chain: seq<Block>, b: Block)
    requires Lawful(c, magic, chain, b)
    ensures b.transactions != [] && IsCoinbase(b.transactions[0])
    ensures CheckInOrder(c, Replay(c, chain).value.utxo, b.transactions[1..], magic, b.height).Ok?
  {
  }

  lemma LeafSize(c: Crypto, tx: Transaction)
    requires BincodeLayout(c) && (tx.inputs == [] ==> tx.outputs == [])
    ensures |c.serialize(tx)| != 8 && |c.serialize(tx)| != 64
  {
  }

  /** In a lawful block no serialised transaction is 8 or 64 bytes long. */
  lemma LawfulLeafSizes(c: Crypto, magic: U32, chain: seq<Block>, b: Block)
    requires Lawful(c, magic, chain, b) && BincodeLayout(c)
    ensures Merkle.LeafSizes(Serialized(c, b.transactions))
  {
    BodyInOrder(c, magic, chain, b);
    forall i | 0 <= i < |b.transactions|
      ensures |c.serialize(b.transactions[i])| != 8 && |c.serialize(b.transactions[i])| != 64
    {
      if i > 0 && b.transactions[i].inputs == [] {
        LaterInputless(c, Replay(c, chain).value.utxo, b.transactions[1..], magic, b.height, i - 1);
      }
      LeafSize(c, b.transactions[i]);
    }
  }

  /** Two lawful blocks with the same header hold the same transactions, in the same order and number,
      unless hashing or serialisation collides on them. */
  lemma HeaderCommits(c: Crypto, magic: U32, chainA: seq<Block>, a: Block, chainB: seq<Block>, b: Block)
    requires Lawful(c, magic, chainA, a) && Lawful(c, magic, chainB, b) && BincodeLayout(c)
    requires a.header == b.header
    requires var x, y := Serialized(c, a.transactions), Serialized(c, b.transactions);
             CollisionFree(c.hash256, Merkle.Hashed(c.hash256, x) + Merkle.Hashed(c.hash256, y))
    requires CollisionFree(c.serialize, (set t | t in a.transactions) + (set t | t in b.transactions))
    ensures a.transactions == b.transactions
  {
    LawfulLeafSizes(c, magic, chainA, a);
    LawfulLeafSizes(c, magic, chainB, b);
    LawfulRoot(c, magic, chainA, a);
    LawfulRoot(c, magic, chainB, b);
    MerkleRootInjective(c, a.transactions, b.transactions);
  }

  lemma LawfulRoot(c: Crypto, magic: U32, chain: seq<Block>, b: Block)
    requires Lawful(c, magic, chain, b)
    ensures b.transactions != [] && MerkleRoot(c, b.transactions) == b.header.merkleRoot
  {
  }

  lemma MerkleRootInjective(c: Crypto, a: seq<Transaction>, b: seq<Transaction>)
    requires a != [] && b != [] && MerkleRoot(c, a) == MerkleRoot(c, b)
    requires Merkle.LeafSizes(Serialized(c, a)) && Merkle.LeafSizes(Serialized(c, b))
    requires CollisionFree(c.hash256, Merkle.Hashed(c.hash256, Serialized(c, a)) + Merkle.Hashed(c.hash256, Serialized(c, b)))
    requires CollisionFree(c.serialize, (set t | t in a) + (set t | t in b))
    ensures a == b
  {
    HexInjective(Merkle.Root(c.hash256, Serialized(c, a)), Merkle.Root(c.hash256, Serialized(c, b)));
    Merkle.RootInjective(c.hash256, Serialized(c, a), Serialized(c, b));
    SerializedInjective(c, a, b);
  }

  lemma SerializedInjective(c: Crypto, a: seq<Transaction>, b: seq<Transaction>)
    requires CollisionFree(c.serialize, (set t | t in a) + (set t | t in b))
    requires Serialized(c, a) == Serialized(c, b)
    ensures a == b
  {
    forall i | 0 <= i < |a| ensures a[i] == b[i] {
      assert Serialized(c, a)[i] == c.serialize(a[i]) && Serialized(c, b)[i] == c.serialize(b[i]);
      assert a[i] in a && b[i] in b;
    }
  }

  // ---------- the past median of a branch ----------

  /** Along a lawful branch the past median never decreases. */
  lemma BranchPastMedian(c: Crypto, magic: U32, chain: seq<Block>, i: nat, j: nat)
    requires LawfulChain(c, magic, chain) && 1 <= i <= j <= |chain|
    ensures PastMedian(TimestampsOf(chain[..i])) <= PastMedian(TimestampsOf(chain[..j]))
  {
    var ts := TimestampsOf(chain);
    forall k | 1 <= k < |ts| ensures ts[k] > PastMedian(ts[..k]) {
      LawfulAt(c, magic, chain, k);
      LawfulHeight(c, magic, chain[..k], chain[k]);
      TimestampsPrefix(chain, k);
    }
    PastMedianMonotone(ts, i, j);
    TimestampsPrefix(chain, i);
    TimestampsPrefix(chain, j);
  }

  lemma TimestampsPrefix(chain: seq<Block>, k: nat)
    requires k <= |chain|
    ensures TimestampsOf(chain[..k]) == TimestampsOf(chain)[..k]
  {
  }
}
