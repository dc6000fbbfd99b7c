/** Where pool entries come from and how long they stay valid: the link between `submit_transaction` and a
    later `mine_block` (src/blockchain/chain.rs). */
module Admissions {
  import opened Basics
  import opened Transactions
  import opened Scripts
  import opened Ledger
  import opened Blocks
  import opened Supply
  import opened DoubleSpend
  import opened BlockTree
  import opened Pools
  import opened Nodes
  import opened Invariant
  import opened Runs

  // ---------- what a set of outputs remembers ----------

  predicate Declares(c: Crypto, t: Transaction, id: Hash, height: nat) {
    IsCoinbase(t) && Txid(c, t) == id && DeclaredHeight(t) == height
  }

  /** Recorded heights were declared by coinbases of `s`. */
  ghost predicate HeightsDeclared(c: Crypto, u: Utxos, s: set<Transaction>) {
    forall id | id in u.mined :: exists t | t in s :: Declares(c, t, id, u.mined[id])
  }

  /** Every output of a coinbase of `s` has its height recorded. */
  ghost predicate HeightsRecorded(c: Crypto, u: Utxos, s: set<Transaction>) {
    forall o, t | o in u.outs && t in s && IsCoinbase(t) && Txid(c, t) == o.txid :: o.txid in u.mined
  }

  ghost predicate Traced(c: Crypto, u: Utxos, s: set<Transaction>) {
    From(c, u.outs, s) && HeightsDeclared(c, u, s) && HeightsRecorded(c, u, s)
  }

  lemma ApplyMined(c: Crypto, u: Utxos, tx: Transaction)
    ensures Apply(c, u, tx).mined == if IsCoinbase(tx) then u.mined[Txid(c, tx) := DeclaredHeight(tx)] else u.mined
    ensures forall o | o in Apply(c, u, tx).outs :: o in u.outs || o.txid == Txid(c, tx)
  {
  }

  lemma DeclaredApply(c: Crypto, u: Utxos, tx: Transaction, s: set<Transaction>)
    requires HeightsDeclared(c, u, s) && tx in s
    ensures HeightsDeclared(c, Apply(c, u, tx), s)
  {
    ApplyMined(c, u, tx);
    var v := Apply(c, u, tx);
    forall id | id in v.mined ensures exists t | t in s :: Declares(c, t, id, v.mined[id]) {
      if IsCoinbase(tx) && id == Txid(c, tx) {
        assert Declares(c, tx, id, v.mined[id]);
      } else {
        assert id in u.mined && v.mined[id] == u.mined[id];
      }
    }
  }

  lemma RecordedApply(c: Crypto, u: Utxos, tx: Transaction, s: set<Transaction>)
    requires HeightsRecorded(c, u, s) && tx in s && TxidsDiffer(c, s)
    ensures HeightsRecorded(c, Apply(c, u, tx), s)
  {
    ApplyMined(c, u, tx);
  }

  lemma TracedApply(c: Crypto, u: Utxos, tx: Transaction, s: set<Transaction>)
    requires Traced(c, u, s) && tx in s && TxidsDiffer(c, s)
    ensures Traced(c, Apply(c, u, tx), s)
  {
    FromApply(c, u, tx, s);
    DeclaredApply(c, u, tx, s);
    RecordedApply(c, u, tx, s);
  }

  lemma {:induction false} TracedApplyAll(c: Crypto, u: Utxos, txs: seq<Transaction>, s: set<Transaction>)
    requires Traced(c, u, s) && AllOf(txs, s) && TxidsDiffer(c, s)
    ensures Traced(c, ApplyAll(c, u, txs), s)
  {
    if txs != [] {
      TracedApplyAll(c, u, txs[..|txs| - 1], s);
      TracedApply(c, ApplyAll(c, u, txs[..|txs| - 1]), txs[|txs| - 1], s);
    }
  }

  lemma TracedReplay(c: Crypto, chain: seq<Block>, s: set<Transaction>)
    requires Replay(c, chain).Some? && TxidsDiffer(c, s) && forall b | b in chain :: AllOf(b.transactions, s)
    ensures Traced(c, Replay(c, chain).value.utxo, s)
  {
    ReplayIsFlat(c, chain);
    forall k | 0 <= k < |Flatten(chain)| ensures Flatten(chain)[k] in s {
      var i := FlattenFinds(chain, Flatten(chain)[k]);
      var j :| 0 <= j < |chain[i].transactions| && chain[i].transactions[j] == Flatten(chain)[k];
      assert chain[i] in chain;
    }
    TracedApplyAll(c, EMPTY_UTXOS, Flatten(chain), s);
  }

  // ---------- validity from one state to another ----------

  ghost predicate Unspent(u: Utxos, inputs: seq<TxInput>) {
    forall i | 0 <= i < |inputs| :: Spent(inputs[i]) in u.outs
  }

  lemma HeightsAgree(c: Crypto, u: Utxos, v: Utxos, o: Outpoint, s: set<Transaction>)
    requires Traced(c, u, s) && Traced(c, v, s) && TxidsDiffer(c, s) && o in u.outs && o.txid in v.mined
    ensures o.txid in u.mined && u.mined[o.txid] == v.mined[o.txid]
  {
    var t :| t in s && Declares(c, t, o.txid, v.mined[o.txid]);
    assert o.txid in u.mined;
    var w :| w in s && Declares(c, w, o.txid, u.mined[o.txid]);
  }

  lemma Agreement(c: Crypto, u: Utxos, v: Utxos, inputs: seq<TxInput>, s: set<Transaction>)
    requires Traced(c, u, s) && Traced(c, v, s) && TxidsDiffer(c, s)
    requires Unspent(u, inputs) && Unspent(v, inputs)
    ensures AgreeOn(u, v, inputs)
  {
    forall i | 0 <= i < |inputs|
      ensures v.outs[Spent(inputs[i])] == u.outs[Spent(inputs[i])]
      ensures inputs[i].prevTxHash in v.mined ==>
              inputs[i].prevTxHash in u.mined && v.mined[inputs[i].prevTxHash] == u.mined[inputs[i].prevTxHash]
    {
      var o := Spent(inputs[i]);
      assert o in u.outs && o in v.outs;
      SameSourceSameOutput(c, u.outs, v.outs, s, o);
      if o.txid in v.mined { HeightsAgree(c, u, v, o, s); }
    }
  }

  /** The outputs these inputs spend are there, mature and unlocked for a block at `height`. */
  ghost predicate RipeAt(u: Utxos, inputs: seq<TxInput>, height: nat) {
    forall i | 0 <= i < |inputs| :: RipeInput(u, inputs[i], height)
  }

  predicate RipeInput(u: Utxos, input: TxInput, height: nat) {
    && Spent(input) in u.outs
    && !Immature(u, input.prevTxHash, height)
    && Unlocked(u.outs[Spent(input)].EffectiveScript(), BlockTime(height))
  }

  lemma SpendableAgain(c: Crypto, u: Utxos, v: Utxos, input: TxInput, sigHash: Bytes, h0: nat, h1: nat)
    requires Spendable(c, u, input, sigHash, h0)
    requires Spent(input) in v.outs && v.outs[Spent(input)] == u.outs[Spent(input)]
    ensures Spendable(c, v, input, sigHash, h1) <==> RipeInput(v, input, h1)
  {
    SatisfiesAgain(c, u.outs[Spent(input)].EffectiveScript(), input, sigHash, BlockTime(h0), BlockTime(h1));
  }

  lemma AllSpendableAgain(c: Crypto, u: Utxos, v: Utxos, inputs: seq<TxInput>, sigHash: Bytes, h0: nat, h1: nat)
    requires AllSpendable(c, u, inputs, sigHash, h0) && AgreeOn(u, v, inputs)
    ensures AllSpendable(c, v, inputs, sigHash, h1) <==> RipeAt(v, inputs, h1)
  {
    forall i | 0 <= i < |inputs|
      ensures Spendable(c, v, inputs[i], sigHash, h1) <==> RipeInput(v, inputs[i], h1)
    {
      assert Spendable(c, u, inputs[i], sigHash, h0);
      SpendableAgain(c, u, v, inputs[i], sigHash, h0, h1);
    }
  }

  lemma ValidSpendsUnspent(c: Crypto, u: Utxos, tx: Transaction, magic: U32, height: nat, fee: nat)
    requires ValidateTx(c, u, tx, magic, height) == Ok(fee)
    ensures AllSpendable(c, u, tx.inputs, SigHash(c, tx, magic), height) && Unspent(u, tx.inputs)
  {
    ValidMeaning(c, u, tx, magic, height, fee);
    forall i | 0 <= i < |tx.inputs| ensures Spent(tx.inputs[i]) in u.outs {
      assert Spendable(c, u, tx.inputs[i], SigHash(c, tx, magic), height);
    }
  }

  lemma ValidAgainOn(c: Crypto, u: Utxos, v: Utxos, tx: Transaction, magic: U32, h0: nat, h1: nat, fee: nat)
    requires ValidateTx(c, u, tx, magic, h0) == Ok(fee) && AgreeOn(u, v, tx.inputs)
    ensures ValidateTx(c, v, tx, magic, h1) == Ok(fee) <==> RipeAt(v, tx.inputs, h1)
  {
    ValidSpendsUnspent(c, u, tx, magic, h0, fee);
    ValidMeaning(c, u, tx, magic, h0, fee);
    AllSpendableAgain(c, u, v, tx.inputs, SigHash(c, tx, magic), h0, h1);
    SumInputsAgree(u.outs, v.outs, tx.inputs);
    ValidMeaning(c, v, tx, magic, h1, fee);
  }

  /** Exactly when a transaction once valid, on any branch and at any height, is valid with the same fee on another branch
      where its outputs are unspent: when those outputs are mature there and their time locks have passed. The
      second height may be smaller, as after a reorganisation to a heavier but shorter branch. */
  lemma ValidAgain(c: Crypto, u: Utxos, v: Utxos, tx: Transaction, magic: U32, h0: nat, h1: nat, fee: nat, s: set<Transaction>)
    requires Traced(c, u, s) && Traced(c, v, s) && TxidsDiffer(c, s)
    requires ValidateTx(c, u, tx, magic, h0) == Ok(fee) && Unspent(v, tx.inputs)
    ensures ValidateTx(c, v, tx, magic, h1) == Ok(fee) <==> RipeAt(v, tx.inputs, h1)
  {
    ValidSpendsUnspent(c, u, tx, magic, h0, fee);
    Agreement(c, u, v, tx.inputs, s);
    ValidAgainOn(c, u, v, tx, magic, h0, h1, fee);
  }

  lemma {:induction false} UnlockedLater(script: Script, t0: nat, t1: nat)
    requires Unlocked(script, t0) && t0 <= t1
    ensures Unlocked(script, t1)
  {
    match script
    case TimeLocked(_, inner) => UnlockedLater(inner, t0, t1);
    case _ =>
  }

  lemma RipeLater(u: Utxos, v: Utxos, inputs: seq<TxInput>, h0: nat, h1: nat)
    requires RipeAt(u, inputs, h0) && AgreeOn(u, v, inputs) && h0 <= h1
    ensures RipeAt(v, inputs, h1)
  {
    forall i | 0 <= i < |inputs| ensures RipeInput(v, inputs[i], h1) {
      assert RipeInput(u, inputs[i], h0);
      UnlockedLater(u.outs[Spent(inputs[i])].EffectiveScript(), BlockTime(h0), BlockTime(h1));
    }
  }

  lemma ValidIsRipe(c: Crypto, u: Utxos, tx: Transaction, magic: U32, height: nat, fee: nat)
    requires ValidateTx(c, u, tx, magic, height) == Ok(fee)
    ensures RipeAt(u, tx.inputs, height)
  {
    ValidSpendsUnspent(c, u, tx, magic, height, fee);
    AllSpendableAgain(c, u, u, tx.inputs, SigHash(c, tx, magic), height, height);
  }

  /** In particular it keeps its validity and its fee at the same or a greater height. */
  lemma StillValid(c: Crypto, u: Utxos, v: Utxos, tx: Transaction, magic: U32, h0: nat, h1: nat, fee: nat, s: set<Transaction>)
    requires Traced(c, u, s) && Traced(c, v, s) && TxidsDiffer(c, s) && h0 <= h1
    requires ValidateTx(c, u, tx, magic, h0) == Ok(fee) && Unspent(v, tx.inputs)
    ensures ValidateTx(c, v, tx, magic, h1) == Ok(fee)
  {
    ValidSpendsUnspent(c, u, tx, magic, h0, fee);
    ValidIsRipe(c, u, tx, magic, h0, fee);
    Agreement(c, u, v, tx.inputs, s);
    RipeLater(u, v, tx.inputs, h0, h1);
    ValidAgainOn(c, u, v, tx, magic, h0, h1, fee);
  }

  // ---------- the pool over a run ----------

  /** Nothing entered the pool, and what stayed kept its fee. */
  ghost predicate Shrinks(p: Pool, q: Pool) {
    forall id | id in q.txs :: id in p.txs && q.txs[id] == p.txs[id] && FeeFor(q, id) == FeeFor(p, id)
  }

  lemma {:induction false} RemoveAllShrinks(c: Crypto, p: Pool, txs: seq<Transaction>)
    ensures Shrinks(p, RemoveAll(c, p, txs))
  {
    if txs != [] { RemoveAllShrinks(c, p, txs[..|txs| - 1]); }
  }

  lemma {:induction false} RemoveBlocksShrinks(c: Crypto, p: Pool, chain: seq<Block>)
    ensures Shrinks(p, RemoveBlocks(c, p, chain))
  {
    if chain != [] {
      RemoveBlocksShrinks(c, p, chain[..|chain| - 1]);
      RemoveAllShrinks(c, RemoveBlocks(c, p, chain[..|chain| - 1]), chain[|chain| - 1].transactions);
    }
  }

  lemma ActivateDrops(c: Crypto, n: Node, h: Hash) returns (part: seq<Block>)
    ensures Activate(c, n, h).node.pool == RemoveBlocks(c, n.pool, part)
  {
    part := if ChainTo(n.all, h).Some? then Replayable(c, ChainTo(n.all, h).value) else [];
  }

  lemma FinishPool(c: Crypto, s: Step)
    ensures Finish(c, s).node.pool == s.node.pool
  {
  }

  lemma AdmitDrops(c: Crypto, n: Node, b: Block, w: nat) returns (part: seq<Block>)
    requires Numbered(n.blocks)
    ensures Admit(c, n, b, w).node.pool == RemoveBlocks(c, n.pool, part)
  {
    var m := Store(c, n, b, w);
    AdmitOutcome(c, n, b, w, m);
    part := ActivateDrops(c, m, BlockHash(c, b));
    FinishPool(c, Activate(c, m, BlockHash(c, b)));
    FinishPool(c, Step(m, Ok(())));
    if TipHash(c, m) !in m.work || w <= m.work[TipHash(c, m)] { part := []; }
  }

  /** Delivering a block takes the transactions of some chain out of the pool, and nothing else. */
  lemma DeliveryDrops(c: Crypto, n: Node, b: Block, now: nat) returns (part: seq<Block>)
    requires Numbered(n.blocks)
    ensures AddBlock(c, n, b, now).node.pool == RemoveBlocks(c, n.pool, part)
  {
    if BlockHash(c, b) in n.all || Check(c, n, b, now).Err? {
      Refused(c, n, map[], b, now);
      part := [];
    } else {
      Passed(c, n, map[], b, now);
      part := AdmitDrops(c, n, b, Check(c, n, b, now).value);
    }
  }

  /** So what stays keeps its fee, and the books still balance. */
  lemma DeliveryShrinksPool(c: Crypto, n: Node, b: Block, now: nat)
    requires Numbered(n.blocks)
    ensures Shrinks(n.pool, AddBlock(c, n, b, now).node.pool)
    ensures Accounted(c, n.pool) ==> Accounted(c, AddBlock(c, n, b, now).node.pool)
  {
    var part := DeliveryDrops(c, n, b, now);
    RemoveBlocksShrinks(c, n.pool, part);
    if Accounted(c, n.pool) { RemoveBlocksKeepsAccount(c, n.pool, part); }
  }

  lemma {:induction false} RemoveBlocksKeepsAccount(c: Crypto, p: Pool, chain: seq<Block>)
    requires Accounted(c, p)
    ensures Accounted(c, RemoveBlocks(c, p, chain))
  {
    if chain != [] {
      RemoveBlocksKeepsAccount(c, p, chain[..|chain| - 1]);
      RemoveAllKeepsAccount(c, RemoveBlocks(c, p, chain[..|chain| - 1]), chain[|chain| - 1].transactions);
    }
  }

  // ---------- what a delivery and a submission do to the pool, exactly ----------

  ghost function TxidsOf(c: Crypto, txs: seq<Transaction>): set<Hash> { set t | t in txs :: Txid(c, t) }

  lemma TxidsAppend(c: Crypto, a: seq<Transaction>, b: seq<Transaction>)
    ensures TxidsOf(c, a + b) == TxidsOf(c, a) + TxidsOf(c, b)
  {
    assert forall t :: t in a + b <==> t in a || t in b;
  }

  lemma {:induction false} RemoveAllExactly(c: Crypto, p: Pool, txs: seq<Transaction>)
    ensures RemoveAll(c, p, txs).txs == p.txs - TxidsOf(c, txs)
  {
    if txs == [] {
      assert p.txs - TxidsOf(c, txs) == p.txs;
    } else {
      var front, id := txs[..|txs| - 1], Txid(c, txs[|txs| - 1]);
      RemoveAllExactly(c, p, front);
      RemoveOne(c, RemoveAll(c, p, front), id);
      TxidsGrow(c, txs);
      Minus(p.txs, TxidsOf(c, front), {id});
    }
  }

  lemma RemoveOne(c: Crypto, p: Pool, id: Hash)
    ensures Remove(c, p, id).txs == p.txs - {id}
  {
  }

  lemma TxidsGrow(c: Crypto, txs: seq<Transaction>)
    requires txs != []
    ensures TxidsOf(c, txs) == TxidsOf(c, txs[..|txs| - 1]) + {Txid(c, txs[|txs| - 1])}
  {
    var front, last := txs[..|txs| - 1], txs[|txs| - 1];
    assert txs == front + [last];
    TxidsAppend(c, front, [last]);
    assert TxidsOf(c, [last]) == {Txid(c, last)} by { assert [last][0] in [last]; }
  }

  lemma {:induction false} RemoveBlocksExactly(c: Crypto, p: Pool, chain: seq<Block>)
    ensures RemoveBlocks(c, p, chain).txs == p.txs - TxidsOf(c, Flatten(chain))
  {
    if chain == [] {
      assert p.txs - TxidsOf(c, Flatten(chain)) == p.txs;
    } else {
      var front, last := chain[..|chain| - 1], chain[|chain| - 1];
      RemoveBlocksExactly(c, p, front);
      RemoveAllExactly(c, RemoveBlocks(c, p, front), last.transactions);
      TxidsAppend(c, Flatten(front), last.transactions);
      Minus(p.txs, TxidsOf(c, Flatten(front)), TxidsOf(c, last.transactions));
    }
  }

  lemma Minus<K, V>(m: map<K, V>, a: set<K>, b: set<K>)
    ensures m - a - b == m - (a + b)
  {
  }

  lemma ActivateOutcome(c: Crypto, n: Node, h: Hash)
    ensures var s := Activate(c, n, h);
            if s.result.Ok? then s.node.pool == RemoveBlocks(c, n.pool, s.node.blocks) else s.node.blocks == n.blocks
  {
  }

  lemma FinishTouches(c: Crypto, s: Step)
    ensures Finish(c, s).node.pool == s.node.pool && Finish(c, s).node.blocks == s.node.blocks
    ensures Finish(c, s).result.Ok? <==> s.result.Ok?
  {
  }

  /** The pool is as before, or it lost the transactions of the new active chain. */
  ghost predicate PoolMoves(c: Crypto, n: Node, s: Step) {
    && (s.result.Ok? ==> s.node.pool == n.pool || s.node.pool == RemoveBlocks(c, n.pool, s.node.blocks))
    && (s.node.blocks != n.blocks ==> s.result.Ok? && s.node.pool == RemoveBlocks(c, n.pool, s.node.blocks))
  }

  lemma AdmitMovesPool(c: Crypto, n: Node, b: Block, w: nat)
    requires Numbered(n.blocks)
    ensures PoolMoves(c, n, Admit(c, n, b, w))
  {
    var m := Store(c, n, b, w);
    AdmitOutcome(c, n, b, w, m);
    ActivateOutcome(c, m, BlockHash(c, b));
    FinishTouches(c, Activate(c, m, BlockHash(c, b)));
    FinishTouches(c, Step(m, Ok(())));
  }

  /** Whenever a delivery changes the active chain, exactly the transactions of the new chain leave the pool; an accepted
      delivery that does not change it takes out those or none. */
  lemma MinedLeavePool(c: Crypto, n: Node, b: Block, now: nat)
    requires Numbered(n.blocks)
    ensures var s := AddBlock(c, n, b, now);
            var rest := n.pool.txs - TxidsOf(c, Flatten(s.node.blocks));
            && (s.node.blocks != n.blocks ==> s.result.Ok? && s.node.pool.txs == rest)
            && (s.result.Ok? ==> s.node.pool == n.pool || s.node.pool.txs == rest)
  {
    var s := AddBlock(c, n, b, now);
    RemoveBlocksExactly(c, n.pool, s.node.blocks);
    if BlockHash(c, b) in n.all || Check(c, n, b, now).Err? {
      Refused(c, n, map[], b, now);
    } else {
      Passed(c, n, map[], b, now);
      AdmitMovesPool(c, n, b, Check(c, n, b, now).value);
    }
  }

  /** Admission to a pool whose books balance, in numbers. */
  lemma AdmissionExactly(c: Crypto, p: Pool, tx: Transaction, fee: nat)
    requires Accounted(c, p)
    ensures var a := AddWithFee(c, p, tx, fee);
            && (a.result.Ok? <==> fee >= 1_000 && HeldBytes(c, p.txs) + |c.serialize(tx)| <= 33_554_432)
            && (a.result.Ok? ==> a.result.value == Txid(c, tx) && a.pool.txs == p.txs[Txid(c, tx) := tx])
            && (a.result.Ok? && Txid(c, tx) !in p.txs ==> a.pool.fees == p.fees[Txid(c, tx) := fee])
            && (a.result.Ok? && Txid(c, tx) in p.txs ==> a.pool.fees == p.fees)
            && (a.result.Err? ==> a.pool == p)
  {
  }

  /** What a submission with the price `fee` turns the node into. */
  ghost predicate SubmittedExactly(c: Crypto, n: Node, tx: Transaction, fee: Result<nat>, s: Submission) {
    && (s.result.Ok? <==> fee.Ok? && fee.value >= 1_000 && HeldBytes(c, n.pool.txs) + |c.serialize(tx)| <= 33_554_432)
    && (s.result.Ok? ==> s.node.pool.txs == n.pool.txs[Txid(c, tx) := tx])
    && (s.result.Ok? && Txid(c, tx) !in n.pool.txs ==> s.node.pool.fees == n.pool.fees[Txid(c, tx) := fee.value])
    && (s.result.Ok? && Txid(c, tx) in n.pool.txs ==> s.node.pool.fees == n.pool.fees)
    && (s.result.Err? ==> s.node == n)
  }

  /** In every run a submission is admitted if and only if it is valid against the tip, its fee is at least 1,000 and the
      pool stays within 32 MiB; then the pool holds it, with that fee unless it was held already. */
  lemma SubmissionExactly(c: Crypto, magic: U32, g: Block, events: seq<Event>, n: Node, tx: Transaction)
    requires g.height == 0 && TxidsDiffer(c, Submitted(events)) && n == Run(c, magic, g, events)
    ensures SubmittedExactly(c, n, tx, ValidateTx(c, n.utxo, tx, n.magic, |n.blocks| - 1), SubmitTransaction(c, n, tx))
  {
    PoolAccountedInEveryRun(c, magic, g, events);
    SubmissionHere(c, n, tx);
  }

  lemma SubmissionHere(c: Crypto, n: Node, tx: Transaction)
    requires Numbered(n.blocks) && Accounted(c, n.pool)
    ensures SubmittedExactly(c, n, tx, ValidateTx(c, n.utxo, tx, n.magic, |n.blocks| - 1), SubmitTransaction(c, n, tx))
  {
    var fee := TipPrice(c, n, tx);
    if fee.Ok? { AdmissionExactly(c, n.pool, tx, fee.value); }
  }

  /** What `submit_transaction` computes for `tx` after the first `k` events. */
  function PriceAt(c: Crypto, magic: U32, g: Block, events: seq<Event>, k: nat, tx: Transaction): Result<nat>
    requires g.height == 0 && k <= |events|
  {
    TipPrice(c, Run(c, magic, g, events[..k]), tx)
  }

  /** `tx` was submitted at step `k` and priced `fee` there. */
  ghost predicate SubmittedAt(c: Crypto, magic: U32, g: Block, events: seq<Event>, k: nat, tx: Transaction, fee: nat)
    requires g.height == 0
  {
    k < |events| && events[k] == Submit(tx) && PriceAt(c, magic, g, events, k, tx) == Ok(fee)
  }

  /** Every entry is filed under its txid, and was submitted before step `k` with exactly its recorded fee. */
  ghost predicate Backed(c: Crypto, magic: U32, g: Block, events: seq<Event>, k: nat, p: Pool)
    requires g.height == 0
  {
    forall id | id in p.txs ::
      Txid(c, p.txs[id]) == id && exists j :: 0 <= j < k && SubmittedAt(c, magic, g, events, j, p.txs[id], FeeFor(p, id))
  }

  lemma BackedShrinks(c: Crypto, magic: U32, g: Block, events: seq<Event>, k: nat, p: Pool, q: Pool)
    requires g.height == 0 && Backed(c, magic, g, events, k, p) && Shrinks(p, q)
    ensures Backed(c, magic, g, events, k + 1, q)
  {
    forall id | id in q.txs
      ensures Txid(c, q.txs[id]) == id && exists j :: 0 <= j < k + 1 && SubmittedAt(c, magic, g, events, j, q.txs[id], FeeFor(q, id))
    {
      var j :| 0 <= j < k && SubmittedAt(c, magic, g, events, j, p.txs[id], FeeFor(p, id));
    }
  }

  ghost function Submitted(events: seq<Event>): set<Transaction> {
    set e | e in events && e.Submit? :: e.tx
  }

  lemma AddOutcome(c: Crypto, p: Pool, tx: Transaction, fee: Result<nat>, id: Hash)
    requires id in Offer(c, p, tx, fee).pool.txs
    requires Txid(c, tx) in p.txs ==> p.txs[Txid(c, tx)] == tx
    ensures var q := Offer(c, p, tx, fee).pool;
            || (id in p.txs && q.txs[id] == p.txs[id] && FeeFor(q, id) == FeeFor(p, id))
            || (fee.Ok? && id == Txid(c, tx) && q.txs[id] == tx && FeeFor(q, id) == fee.value)
  {
  }

  lemma BackedSubmit(c: Crypto, magic: U32, g: Block, events: seq<Event>, k: nat, p: Pool, tx: Transaction)
    requires g.height == 0 && Backed(c, magic, g, events, k, p) && k < |events| && events[k] == Submit(tx)
    requires Txid(c, tx) in p.txs ==> p.txs[Txid(c, tx)] == tx
    ensures Backed(c, magic, g, events, k + 1, Offer(c, p, tx, PriceAt(c, magic, g, events, k, tx)).pool)
  {
    var fee := PriceAt(c, magic, g, events, k, tx);
    var q := Offer(c, p, tx, fee).pool;
    forall id | id in q.txs
      ensures Txid(c, q.txs[id]) == id && exists j :: 0 <= j < k + 1 && SubmittedAt(c, magic, g, events, j, q.txs[id], FeeFor(q, id))
    {
      AddOutcome(c, p, tx, fee, id);
      if id in p.txs && q.txs[id] == p.txs[id] && FeeFor(q, id) == FeeFor(p, id) {
        var j :| 0 <= j < k && SubmittedAt(c, magic, g, events, j, p.txs[id], FeeFor(p, id));
      } else {
        assert SubmittedAt(c, magic, g, events, k, tx, fee.value);
      }
    }
  }

  lemma HeldIsSame(c: Crypto, magic: U32, g: Block, events: seq<Event>, k: nat, p: Pool, tx: Transaction)
    requires g.height == 0 && Backed(c, magic, g, events, k, p) && k < |events| && events[k] == Submit(tx)
    requires TxidsDiffer(c, Submitted(events)) && Txid(c, tx) in p.txs
    ensures p.txs[Txid(c, tx)] == tx
  {
    var id := Txid(c, tx);
    var j :| 0 <= j < k && SubmittedAt(c, magic, g, events, j, p.txs[id], FeeFor(p, id));
    assert events[j] in events && events[k] in events;
  }

  ghost function BackedAt(c: Crypto, magic: U32, g: Block, events: seq<Event>): nat -> bool
    requires g.height == 0
  {
    (k: nat) => k <= |events| && Backed(c, magic, g, events, k, Run(c, magic, g, events[..k]).pool)
  }

  lemma PoolAfter(c: Crypto, magic: U32, g: Block, events: seq<Event>, k: nat)
    requires g.height == 0 && k < |events|
    ensures var p, q := Run(c, magic, g, events[..k]).pool, Run(c, magic, g, events[..k + 1]).pool;
            && (events[k].Deliver? ==> Shrinks(p, q) && (Accounted(c, p) ==> Accounted(c, q)))
            && (events[k].Submit? ==> q == Offer(c, p, events[k].tx, PriceAt(c, magic, g, events, k, events[k].tx)).pool)
  {
    RunUnfolds(c, magic, g, events, k);
    if events[k].Deliver? {
      DeliveryShrinksPool(c, Run(c, magic, g, events[..k]), events[k].block, events[k].now);
    }
  }

  lemma BackedNext(c: Crypto, magic: U32, g: Block, events: seq<Event>, k: nat)
    requires g.height == 0 && k < |events| && TxidsDiffer(c, Submitted(events)) && BackedAt(c, magic, g, events)(k)
    ensures BackedAt(c, magic, g, events)(k + 1)
  {
    var p, q := Run(c, magic, g, events[..k]).pool, Run(c, magic, g, events[..k + 1]).pool;
    PoolAfter(c, magic, g, events, k);
    match events[k]
    case Deliver(_, _) => BackedShrinks(c, magic, g, events, k, p, q);
    case Submit(tx) =>
      if Txid(c, tx) in p.txs { HeldIsSame(c, magic, g, events, k, p, tx); }
      BackedSubmit(c, magic, g, events, k, p, tx);
  }

  lemma BackedStart(c: Crypto, magic: U32, g: Block, events: seq<Event>)
    requires g.height == 0
    ensures BackedAt(c, magic, g, events)(0)
  {
    assert events[..0] == [];
  }

  lemma BackedAlways(c: Crypto, magic: U32, g: Block, events: seq<Event>, k: nat)
    requires g.height == 0 && TxidsDiffer(c, Submitted(events)) && k <= |events|
    ensures BackedAt(c, magic, g, events)(k)
  {
    BackedStart(c, magic, g, events);
    forall j: nat | j < k && BackedAt(c, magic, g, events)(j) ensures BackedAt(c, magic, g, events)(j + 1) {
      BackedNext(c, magic, g, events, j);
    }
    Induct(BackedAt(c, magic, g, events), k);
  }

  /** In every run, every pool entry was submitted at some step and carries the fee that validation computed
      there, against the unspent outputs and at the height of that moment. */
  lemma FeesAreVouched(c: Crypto, magic: U32, g: Block, events: seq<Event>)
    requires g.height == 0 && TxidsDiffer(c, Submitted(events))
    ensures Backed(c, magic, g, events, |events|, Run(c, magic, g, events).pool)
  {
    BackedAlways(c, magic, g, events, |events|);
    assert events[..|events|] == events;
  }

  // ---------- the pool's books over a run ----------

  ghost function AccountedAt(c: Crypto, magic: U32, g: Block, events: seq<Event>): nat -> bool
    requires g.height == 0
  {
    (k: nat) => k <= |events| && Accounted(c, Run(c, magic, g, events[..k]).pool)
  }

  lemma OfferKeepsAccount(c: Crypto, p: Pool, tx: Transaction, fee: Result<nat>)
    requires Accounted(c, p) && (Txid(c, tx) in p.txs ==> p.txs[Txid(c, tx)] == tx)
    ensures Accounted(c, Offer(c, p, tx, fee).pool)
  {
    if fee.Ok? { AddKeepsAccount(c, p, tx, fee.value); }
  }

  lemma AccountNext(c: Crypto, magic: U32, g: Block, events: seq<Event>, k: nat)
    requires g.height == 0 && k < |events| && TxidsDiffer(c, Submitted(events))
    requires Backed(c, magic, g, events, k, Run(c, magic, g, events[..k]).pool)
    requires Accounted(c, Run(c, magic, g, events[..k]).pool)
    ensures Accounted(c, Run(c, magic, g, events[..k + 1]).pool)
  {
    var p := Run(c, magic, g, events[..k]).pool;
    PoolAfter(c, magic, g, events, k);
    if events[k].Submit? {
      var tx := events[k].tx;
      if Txid(c, tx) in p.txs { HeldIsSame(c, magic, g, events, k, p, tx); }
      OfferKeepsAccount(c, p, tx, PriceAt(c, magic, g, events, k, tx));
    }
  }

  lemma AccountStep(c: Crypto, magic: U32, g: Block, events: seq<Event>, k: nat)
    requires g.height == 0 && k < |events| && TxidsDiffer(c, Submitted(events)) && AccountedAt(c, magic, g, events)(k)
    ensures AccountedAt(c, magic, g, events)(k + 1)
  {
    BackedAlways(c, magic, g, events, k);
    AccountNext(c, magic, g, events, k);
  }

  lemma EmptyAccounted(c: Crypto)
    ensures Accounted(c, EMPTY_POOL)
  {
  }

  /** In every run of a node, whatever blocks and transactions it is given, the pool's byte total is the sum of the held
      sizes and within 32 MiB, its fee keys are its transaction keys, every fee clears the minimum, and every
      transaction is filed under its txid. */
  lemma PoolAccountedInEveryRun(c: Crypto, magic: U32, g: Block, events: seq<Event>)
    requires g.height == 0 && TxidsDiffer(c, Submitted(events))
    ensures Accounted(c, Run(c, magic, g, events).pool)
  {
    EmptyAccounted(c);
    assert events[..0] == [];
    forall k: nat | k < |events| && AccountedAt(c, magic, g, events)(k) ensures AccountedAt(c, magic, g, events)(k + 1) {
      AccountStep(c, magic, g, events, k);
    }
    Induct(AccountedAt(c, magic, g, events), |events|);
    assert events[..|events|] == events;
  }
}
