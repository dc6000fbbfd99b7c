/** What holds of every block and every spend on every branch a node ever stored: proof of work, limits, timestamps, subsidy,
    the consent of the owners and the maturity of coinbases. */
module Spending {
  import opened Basics
  import opened Transactions
  import opened Scripts
  import opened Ledger
  import opened Targets
  import opened Timestamps
  import opened Emission
  import opened Blocks
  import opened Supply
  import opened DoubleSpend
  import opened BlockTree
  import opened Invariant
  import opened Runs
  import opened Guarantees
  import opened Admissions
  import Difficulty

  // ---------- spends ----------

  lemma LaterTransactionIsValid(c: Crypto, u: Utxos, txs: seq<Transaction>, magic: U32, height: nat, j: nat)
    requires 1 <= j < |txs| && TotalFees(c, u, txs[1..], magic, height).Ok?
    ensures AllSpendable(c, u, txs[j].inputs, SigHash(c, txs[j], magic), height)
  {
    ValidAgainstParent(c, u, txs[1..], magic, height, j - 1);
    assert txs[1..][j - 1] == txs[j];
    ValidMeaning(c, u, txs[j], magic, height, ValidateTx(c, u, txs[j], magic, height).value);
  }

  /** The inputs of a later transaction are spendable in the state its parent left. */
  lemma SpendableOnBranch(c: Crypto, magic: U32, chain: seq<Block>, i: nat, j: nat, k: nat)
    requires LawfulChain(c, magic, chain) && 1 <= i < |chain| && 1 <= j < |chain[i].transactions|
    requires k < |chain[i].transactions[j].inputs|
    ensures Replay(c, chain[..i]).Some?
    ensures var tx := chain[i].transactions[j];
            Spendable(c, Replay(c, chain[..i]).value.utxo, tx.inputs[k], SigHash(c, tx, magic), i)
  {
    LawfulAt(c, magic, chain, i);
    LawfulSubsidy(c, magic, chain[..i], chain[i]);
    LaterTransactionIsValid(c, Replay(c, chain[..i]).value.utxo, chain[i].transactions, magic, i, j);
  }

  lemma FromBranch(c: Crypto, chain: seq<Block>)
    requires Replay(c, chain).Some?
    ensures From(c, Replay(c, chain).value.utxo.outs, TxsOf(chain))
  {
    ReplayIsFlat(c, chain);
    FlattenWithin(chain);
    FromApplyAll(c, EMPTY_UTXOS, Flatten(chain), TxsOf(chain));
  }

  lemma TracedBranch(c: Crypto, chain: seq<Block>)
    requires Replay(c, chain).Some? && TxidsDiffer(c, TxsOf(chain))
    ensures Traced(c, Replay(c, chain).value.utxo, TxsOf(chain))
  {
    forall b | b in chain ensures AllOf(b.transactions, TxsOf(chain)) {
      var i :| 0 <= i < |chain| && chain[i] == b;
      TxsOfCovers(chain, i);
    }
    TracedReplay(c, chain, TxsOf(chain));
  }

  /** In a traced state an output of a coinbase is spendable only a hundred blocks after its declared height. */
  lemma SpendableIsMature(c: Crypto, u: Utxos, s: set<Transaction>, input: TxInput, digest: Bytes, height: nat, maker: Transaction)
    requires Traced(c, u, s) && TxidsDiffer(c, s) && Spendable(c, u, input, digest, height)
    requires maker in s && IsCoinbase(maker) && Txid(c, maker) == input.prevTxHash
    ensures height >= DeclaredHeight(maker) + 100
  {
    MaturityExact(u, input.prevTxHash, height);
    assert Spent(input).txid in u.mined;
    var t :| t in s && Declares(c, t, input.prevTxHash, u.mined[input.prevTxHash]);
    assert t == maker;
  }

  lemma SpendableConsents(c: Crypto, u: Utxos, input: TxInput, digest: Bytes, height: nat, s: set<Transaction>)
    returns (maker: Transaction)
    requires Spendable(c, u, input, digest, height) && From(c, u.outs, s)
    ensures maker in s && Txid(c, maker) == input.prevTxHash && input.prevIndex < |maker.outputs|
    ensures Consents(c, maker.outputs[input.prevIndex].EffectiveScript(), input, digest, 600 * height)
  {
    var o := Spent(input);
    maker :| maker in s && Makes(c, maker, o, u.outs[o]);
    SatisfiesExactly(c, u.outs[o].EffectiveScript(), input, digest, BlockTime(height));
  }

  /** Input `k` of transaction `j` of block `i` names an output of `maker`, a transaction in an earlier block, whose script
      consents to this input, for this transaction's own digest, at this height; if `maker` is a coinbase, a
      hundred blocks have passed since the height it declared. */
  ghost predicate Authorised(c: Crypto, magic: U32, chain: seq<Block>, i: nat, j: nat, k: nat, maker: Transaction)
    requires i < |chain| && j < |chain[i].transactions| && k < |chain[i].transactions[j].inputs|
  {
    var tx := chain[i].transactions[j];
    var input := tx.inputs[k];
    && maker in TxsOf(chain[..i]) && Txid(c, maker) == input.prevTxHash && input.prevIndex < |maker.outputs|
    && Consents(c, maker.outputs[input.prevIndex].EffectiveScript(), input, SigHash(c, tx, magic), 600 * i)
    && (TxidsDiffer(c, TxsOf(chain)) && IsCoinbase(maker) ==> i >= DeclaredHeight(maker) + 100)
  }

  lemma SpendIsAuthorised(c: Crypto, magic: U32, chain: seq<Block>, i: nat, j: nat, k: nat) returns (maker: Transaction)
    requires LawfulChain(c, magic, chain) && 1 <= i < |chain| && 1 <= j < |chain[i].transactions|
    requires k < |chain[i].transactions[j].inputs|
    ensures Authorised(c, magic, chain, i, j, k, maker)
  {
    var tx, before := chain[i].transactions[j], chain[..i];
    SpendableOnBranch(c, magic, chain, i, j, k);
    FromBranch(c, before);
    var u := Replay(c, before).value.utxo;
    maker := SpendableConsents(c, u, tx.inputs[k], SigHash(c, tx, magic), i, TxsOf(before));
    if TxidsDiffer(c, TxsOf(chain)) && IsCoinbase(maker) {
      TxsOfPrefix(chain, i);
      TracedBranch(c, before);
      SpendableIsMature(c, u, TxsOf(before), tx.inputs[k], SigHash(c, tx, magic), i, maker);
    }
  }

  /** In every run, every input of every later transaction on every branch ever stored is authorised by the output it spends. */
  lemma SpendsAreAuthorised(c: Crypto, magic: U32, g: Block, events: seq<Event>, h: Hash, i: nat, j: nat, k: nat)
    returns (maker: Transaction)
    requires IsGenesis(c, g) && NoCollisions(c, Seen(g, events)) && h in Hist(c, magic, g, events)
    requires var chain := Branch(Hist(c, magic, g, events), h);
             1 <= i < |chain| && 1 <= j < |chain[i].transactions| && k < |chain[i].transactions[j].inputs|
    ensures Authorised(c, magic, Branch(Hist(c, magic, g, events), h), i, j, k, maker)
  {
    StoredBranch(c, magic, g, events, h);
    maker := SpendIsAuthorised(c, magic, Branch(Hist(c, magic, g, events), h), i, j, k);
  }

  lemma StoredBranch(c: Crypto, magic: U32, g: Block, events: seq<Event>, h: Hash)
    requires IsGenesis(c, g) && NoCollisions(c, Seen(g, events)) && h in Hist(c, magic, g, events)
    ensures LawfulChain(c, magic, Branch(Hist(c, magic, g, events), h))
  {
    Reachable(c, magic, g, events);
    BranchIsLawful(c, g, Run(c, magic, g, events), Hist(c, magic, g, events), h);
  }

  // ---------- blocks ----------

  /** What a block obeys by itself, in numbers: limits, a coinbase first, a header that commits to the body, and the proof
      of work its bits ask for. */
  ghost predicate Obeys(c: Crypto, b: Block) {
    && 1 <= |b.transactions| <= 10_000 && BlockBytes(c, b) <= 4_194_304 && UtxoOps(b.transactions) <= 50_000
    && IsCoinbase(b.transactions[0]) && |b.transactions[0].outputs| <= 16
    && b.header.merkleRoot == MerkleRoot(c, b.transactions)
    && FromBe(c.hash256(c.headerBytes(b.header))) <= TargetValue(b.header.bits)
  }

  lemma LawfulObeys(c: Crypto, magic: U32, chain: seq<Block>, b: Block)
    requires Lawful(c, magic, chain, b)
    ensures Obeys(c, b)
  {
    WorkIsNumeric(c, b.header);
  }

  lemma {:induction false} BelowAppend(a: seq<nat>, b: seq<nat>, v: nat)
    ensures Below(a + b, v) == Below(a, v) + Below(b, v)
  {
    if a == [] {
      assert a + b == b;
    } else {
      BelowAppend(a[1..], b, v);
      assert (a + b)[1..] == a[1..] + b;
    }
  }

  lemma {:induction false} BelowBackwards(s: seq<nat>, r: seq<nat>, v: nat)
    requires |s| == |r| && forall i | 0 <= i < |s| :: r[i] == s[|s| - 1 - i]
    ensures Below(r, v) == Below(s, v)
  {
    if s != [] {
      var n := |s| - 1;
      BelowBackwards(s[..n], r[1..], v);
      BelowAppend(s[..n], [s[n]], v);
      assert s == s[..n] + [s[n]] && [s[n]][1..] == [];
    }
  }

  /** A timestamp above the past median exceeds more than half of the last eleven timestamps. */
  lemma ExceedsMost(ts: seq<nat>, t: nat)
    requires ts != [] && t > PastMedian(ts)
    ensures var last := ts[Max(0, |ts| - 11)..]; 2 * Below(last, t) > |last|
  {
    MedianRank(Recent(ts), t);
    BelowBackwards(ts[Max(0, |ts| - 11)..], Recent(ts), t);
  }

  /** What block `i` obeys on its branch: it extends the block below by height and hash, has the bits the branch fixes, and
      is dated after most of the last eleven blocks. */
  ghost predicate Follows(c: Crypto, chain: seq<Block>, i: nat)
    requires 1 <= i < |chain|
  {
    var last := TimestampsOf(chain[Max(0, i - 11)..i]);
    && chain[i].height == i && chain[i].header.prevHash == BlockHash(c, chain[i - 1])
    && Numbered(chain[..i]) && chain[i].header.bits == NextBits(chain[..i])
    && 2 * Below(last, chain[i].header.timestamp) > |last|
  }

  lemma BlockObeys(c: Crypto, magic: U32, chain: seq<Block>, i: nat)
    requires LawfulChain(c, magic, chain) && 1 <= i < |chain|
    ensures Obeys(c, chain[i]) && Follows(c, chain, i)
  {
    LawfulAt(c, magic, chain, i);
    LawfulObeys(c, magic, chain[..i], chain[i]);
    LawfulHeight(c, magic, chain[..i], chain[i]);
    DatedAfterMost(chain, i);
  }

  lemma DatedAfterMost(chain: seq<Block>, i: nat)
    requires 1 <= i < |chain| && chain[i].header.timestamp > PastMedian(TimestampsOf(chain[..i]))
    ensures var last := TimestampsOf(chain[Max(0, i - 11)..i]); 2 * Below(last, chain[i].header.timestamp) > |last|
  {
    ExceedsMost(TimestampsOf(chain[..i]), chain[i].header.timestamp);
    assert TimestampsOf(chain[..i])[Max(0, i - 11)..] == TimestampsOf(chain[Max(0, i - 11)..i]);
  }

  /** In every run, every block above genesis of every branch ever stored obeys both. */
  lemma StoredBlocksObey(c: Crypto, magic: U32, g: Block, events: seq<Event>, h: Hash, i: nat)
    requires IsGenesis(c, g) && NoCollisions(c, Seen(g, events)) && h in Hist(c, magic, g, events)
    requires 1 <= i < |Branch(Hist(c, magic, g, events), h)|
    ensures Obeys(c, Branch(Hist(c, magic, g, events), h)[i]) && Follows(c, Branch(Hist(c, magic, g, events), h), i)
  {
    StoredBranch(c, magic, g, events, h);
    BlockObeys(c, magic, Branch(Hist(c, magic, g, events), h), i);
  }

  /** In every run, the bits of every block above genesis of every branch ever stored follow the clock of that branch. */
  lemma DifficultyInEveryRun(c: Crypto, magic: U32, g: Block, events: seq<Event>, h: Hash, i: nat)
    requires IsGenesis(c, g) && NoCollisions(c, Seen(g, events)) && h in Hist(c, magic, g, events)
    requires 1 <= i < |Branch(Hist(c, magic, g, events), h)|
    ensures Difficulty.BitsFollowClock(Branch(Hist(c, magic, g, events), h), i)
  {
    StoredBranch(c, magic, g, events, h);
    Difficulty.BitsAlongBranch(c, magic, Branch(Hist(c, magic, g, events), h), i);
  }

  // ---------- the subsidy ----------

  /** What the transactions' inputs are worth in `outs` beyond their outputs. */
  ghost function Surplus(outs: map<Outpoint, TxOutput>, txs: seq<Transaction>): int {
    if txs == [] then 0
    else
      var tx := txs[|txs| - 1];
      Surplus(outs, txs[..|txs| - 1]) + SumInputs(outs, tx.inputs) - SumOutputs(tx.outputs)
  }

  lemma {:induction false} FeesAreSurplus(c: Crypto, u: Utxos, txs: seq<Transaction>, magic: U32, height: nat)
    requires TotalFees(c, u, txs, magic, height).Ok?
    ensures TotalFees(c, u, txs, magic, height).value == Surplus(u.outs, txs)
  {
    if txs != [] {
      FeesAreSurplus(c, u, txs[..|txs| - 1], magic, height);
      var last := txs[|txs| - 1];
      ValidMeaning(c, u, last, magic, height, ValidateTx(c, u, last, magic, height).value);
    }
  }

  /** What the coinbase of block `i` may claim: at most the scheduled reward and the block's own fees, and of new coins at
      most what is left of the cap. */
  ghost predicate WithinSubsidy(c: Crypto, chain: seq<Block>, i: nat)
    requires i < |chain|
  {
    && Replay(c, chain[..i]).Some? && chain[i].transactions != []
    && var r := Replay(c, chain[..i]).value;
       var claimed, fees := CoinbaseValue(chain[i]), Surplus(r.utxo.outs, chain[i].transactions[1..]);
       && claimed <= BlockReward(i) + fees
       && (r.minted <= MAX_SUPPLY ==> r.minted + claimed <= MAX_SUPPLY + fees)
       && (r.minted > MAX_SUPPLY ==> claimed <= fees)
  }

  lemma SubsidyOnBranch(c: Crypto, magic: U32, chain: seq<Block>, i: nat)
    requires LawfulChain(c, magic, chain) && 1 <= i < |chain|
    ensures WithinSubsidy(c, chain, i)
  {
    LawfulAt(c, magic, chain, i);
    LawfulSubsidy(c, magic, chain[..i], chain[i]);
    FeesAreSurplus(c, Replay(c, chain[..i]).value.utxo, chain[i].transactions[1..], magic, i);
  }

  /** In every run, on every branch ever stored. */
  lemma SubsidyInEveryRun(c: Crypto, magic: U32, g: Block, events: seq<Event>, h: Hash, i: nat)
    requires IsGenesis(c, g) && NoCollisions(c, Seen(g, events)) && h in Hist(c, magic, g, events)
    requires 1 <= i < |Branch(Hist(c, magic, g, events), h)|
    ensures WithinSubsidy(c, Branch(Hist(c, magic, g, events), h), i)
  {
    StoredBranch(c, magic, g, events, h);
    SubsidyOnBranch(c, magic, Branch(Hist(c, magic, g, events), h), i);
  }
}
