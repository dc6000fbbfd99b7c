/** Conservation of value and the supply cap over every accepted chain. */
module Supply {
  import opened Basics
  import opened Transactions
  import opened Ledger
  import opened Emission
  import opened Blocks

  // ---------- the value of a set of outputs ----------

  function ValueOf(o: TxOutput): nat { o.value }

  ghost function Total(m: map<Outpoint, TxOutput>): nat { SumOver(ValueOf, m) }

  lemma TotalWithout(m: map<Outpoint, TxOutput>, o: Outpoint)
    requires o in m
    ensures Total(m) == m[o].value + Total(m - {o})
  {
    SumWithout(ValueOf, m, o);
  }

  lemma TotalUpdate(m: map<Outpoint, TxOutput>, o: Outpoint, v: TxOutput)
    ensures Total(m[o := v]) <= Total(m) + v.value
    ensures o !in m ==> Total(m[o := v]) == Total(m) + v.value
  {
    TotalWithout(m[o := v], o);
    assert m[o := v] - {o} == m - {o};
    if o in m {
      TotalWithout(m, o);
    } else {
      assert m - {o} == m;
    }
  }

  lemma {:induction false} TotalCreate(m: map<Outpoint, TxOutput>, txid: Hash, outputs: seq<TxOutput>)
    ensures Total(m + Created(txid, outputs)) <= Total(m) + SumOutputs(outputs)
    ensures (forall o | o in m :: o.txid != txid) ==>
            Total(m + Created(txid, outputs)) == Total(m) + SumOutputs(outputs)
    decreases |outputs|
  {
    if outputs == [] {
      assert m + Created(txid, outputs) == m;
    } else {
      var n := |outputs| - 1;
      TotalCreate(m, txid, outputs[..n]);
      CreateLast(m, txid, outputs, n);
      TotalUpdate(m + Created(txid, outputs[..n]), Outpoint(txid, n), outputs[n]);
    }
  }

  lemma CreateLast(m: map<Outpoint, TxOutput>, txid: Hash, outputs: seq<TxOutput>, n: nat)
    requires n + 1 == |outputs|
    ensures m + Created(txid, outputs) == (m + Created(txid, outputs[..n]))[Outpoint(txid, n) := outputs[n]]
    ensures Outpoint(txid, n) !in Created(txid, outputs[..n])
  {
    CreatedGrows(txid, outputs, n);
    assert outputs[..n + 1] == outputs;
  }

  /** Value that the input loop counts more than once, because several inputs name the same output. */
  ghost function Recounted(m: map<Outpoint, TxOutput>, inputs: seq<TxInput>): nat {
    if inputs == [] then 0
    else
      var o := Spent(inputs[|inputs| - 1]);
      Recounted(m, inputs[..|inputs| - 1])
      + if o in SpentSet(inputs[..|inputs| - 1]) && o in m then m[o].value else 0
  }

  ghost predicate AllPresent(m: map<Outpoint, TxOutput>, inputs: seq<TxInput>) {
    forall i | 0 <= i < |inputs| :: Spent(inputs[i]) in m
  }

  lemma SpentSetGrows(inputs: seq<TxInput>)
    requires inputs != []
    ensures var n := |inputs| - 1; SpentSet(inputs) == SpentSet(inputs[..n]) + {Spent(inputs[n])}
  {
    var n := |inputs| - 1;
    forall o | o in SpentSet(inputs) ensures o in SpentSet(inputs[..n]) + {Spent(inputs[n])} {
      var i :| 0 <= i < |inputs| && Spent(inputs[i]) == o;
      if i < n { assert inputs[..n][i] == inputs[i]; }
    }
    assert inputs[n] in inputs;
    forall i | i in inputs[..n] ensures i in inputs { }
  }

  lemma {:induction false} TotalSpend(m: map<Outpoint, TxOutput>, inputs: seq<TxInput>)
    requires AllPresent(m, inputs)
    ensures Total(m - SpentSet(inputs)) + SumInputs(m, inputs) == Total(m) + Recounted(m, inputs)
  {
    if inputs == [] {
      assert m - SpentSet(inputs) == m;
    } else {
      var n := |inputs| - 1;
      var o, before := Spent(inputs[n]), SpentSet(inputs[..n]);
      TotalSpend(m, inputs[..n]);
      SpentSetGrows(inputs);
      if o in before {
        assert before + {o} == before;
      } else {
        TotalWithout(m - before, o);
        assert m - (before + {o}) == m - before - {o};
      }
    }
  }

  predicate DistinctSpends(inputs: seq<TxInput>) {
    forall i, j | 0 <= i < j < |inputs| :: Spent(inputs[i]) != Spent(inputs[j])
  }

  lemma {:induction false} DistinctNotRecounted(m: map<Outpoint, TxOutput>, inputs: seq<TxInput>)
    requires DistinctSpends(inputs)
    ensures Recounted(m, inputs) == 0
  {
    if inputs != [] {
      DistinctNotRecounted(m, inputs[..|inputs| - 1]);
    }
  }

  // ---------- one transaction ----------

  /** Exact balance of a valid transaction with a fresh id: what it adds to the unspent value, plus its fee,
      is exactly the value its inputs count twice. So it conserves value if and only if that is zero. */
  lemma TransactionBalance(c: Crypto, u: Utxos, tx: Transaction, magic: U32, height: nat, fee: nat)
    requires ValidateTx(c, u, tx, magic, height) == Ok(fee) && !IsCoinbase(tx)
    ensures Total(Apply(c, u, tx).outs) + fee <= Total(u.outs) + Recounted(u.outs, tx.inputs)
    ensures (forall o | o in u.outs :: o.txid != Txid(c, tx)) ==>
            Total(Apply(c, u, tx).outs) + fee == Total(u.outs) + Recounted(u.outs, tx.inputs)
    ensures (forall o | o in u.outs :: o.txid != Txid(c, tx)) ==>
            (Total(Apply(c, u, tx).outs) + fee == Total(u.outs) <==> Recounted(u.outs, tx.inputs) == 0)
  {
    ValidMeaning(c, u, tx, magic, height, fee);
    TotalSpend(u.outs, tx.inputs);
    TotalCreate(u.outs - SpentSet(tx.inputs), Txid(c, tx), tx.outputs);
  }

  ghost predicate Repeat(m: map<Outpoint, TxOutput>, inputs: seq<TxInput>, i: nat, j: nat)
    requires AllPresent(m, inputs)
  {
    i < j < |inputs| && Spent(inputs[i]) == Spent(inputs[j]) && m[Spent(inputs[j])].value > 0
  }

  lemma {:induction false} RecountedHasRepeat(m: map<Outpoint, TxOutput>, inputs: seq<TxInput>) returns (i: nat, j: nat)
    requires AllPresent(m, inputs) && Recounted(m, inputs) > 0
    ensures Repeat(m, inputs, i, j)
  {
    var n := |inputs| - 1;
    if Recounted(m, inputs[..n]) > 0 {
      i, j := RecountedHasRepeat(m, inputs[..n]);
    } else {
      i, j :| 0 <= i < n && Spent(inputs[..n][i]) == Spent(inputs[n]) && j == n;
    }
  }

  lemma {:induction false} RepeatIsRecounted(m: map<Outpoint, TxOutput>, inputs: seq<TxInput>, i: nat, j: nat)
    requires AllPresent(m, inputs) && Repeat(m, inputs, i, j)
    ensures Recounted(m, inputs) > 0
    decreases |inputs|
  {
    var n := |inputs| - 1;
    if j < n {
      RepeatIsRecounted(m, inputs[..n], i, j);
    } else {
      assert inputs[..n][i] == inputs[i];
      assert Spent(inputs[n]) in SpentSet(inputs[..n]);
    }
  }

  /** Value is counted twice exactly when some output worth something is named by two inputs. */
  lemma RecountedExactly(m: map<Outpoint, TxOutput>, inputs: seq<TxInput>)
    requires AllPresent(m, inputs)
    ensures Recounted(m, inputs) > 0 <==> exists i, j :: Repeat(m, inputs, i, j)
  {
    if Recounted(m, inputs) > 0 {
      var i, j := RecountedHasRepeat(m, inputs);
    }
    forall i, j | Repeat(m, inputs, i, j) ensures Recounted(m, inputs) > 0 {
      RepeatIsRecounted(m, inputs, i, j);
    }
  }

  // ---------- where outputs come from ----------

  /** Every unspent output is an output of the transaction in `txs` its outpoint names. */
  ghost predicate From(c: Crypto, outs: map<Outpoint, TxOutput>, txs: set<Transaction>) {
    forall o | o in outs :: exists tx | tx in txs :: Makes(c, tx, o, outs[o])
  }

  predicate Makes(c: Crypto, tx: Transaction, o: Outpoint, v: TxOutput) {
    Txid(c, tx) == o.txid && o.index < |tx.outputs| && tx.outputs[o.index] == v
  }

  ghost predicate TxidsDiffer(c: Crypto, txs: set<Transaction>) {
    forall x, y :: x in txs && y in txs && Txid(c, x) == Txid(c, y) ==> x == y
  }

  lemma FromApply(c: Crypto, u: Utxos, tx: Transaction, txs: set<Transaction>)
    requires From(c, u.outs, txs) && tx in txs
    ensures From(c, Apply(c, u, tx).outs, txs)
  {
    var v := Apply(c, u, tx).outs;
    var made := Created(Txid(c, tx), tx.outputs);
    forall o | o in v ensures exists t | t in txs :: Makes(c, t, o, v[o]) {
      if o in made {
        assert o == Outpoint(Txid(c, tx), o.index);
        assert Makes(c, tx, o, v[o]);
      } else {
        assert o in u.outs && v[o] == u.outs[o];
      }
    }
  }

  lemma SameSourceSameOutput(c: Crypto, a: map<Outpoint, TxOutput>, b: map<Outpoint, TxOutput>, txs: set<Transaction>,
          o: Outpoint)
    requires From(c, a, txs) && From(c, b, txs) && TxidsDiffer(c, txs) && o in a && o in b
    ensures a[o] == b[o]
  {
    var x :| x in txs && Makes(c, x, o, a[o]);
    var y :| y in txs && Makes(c, y, o, b[o]);
  }

  lemma SameFee(c: Crypto, u: Utxos, v: Utxos, tx: Transaction, magic: U32, height: nat, f: nat, g: nat,
          txs: set<Transaction>)
    requires From(c, u.outs, txs) && From(c, v.outs, txs) && TxidsDiffer(c, txs)
    requires ValidateTx(c, u, tx, magic, height) == Ok(f) && ValidateTx(c, v, tx, magic, height) == Ok(g)
    ensures f == g
  {
    ValidMeaning(c, u, tx, magic, height, f);
    ValidMeaning(c, v, tx, magic, height, g);
    SameSum(c, u, v, tx.inputs, SigHash(c, tx, magic), height, txs);
  }

  lemma SameSum(c: Crypto, u: Utxos, v: Utxos, inputs: seq<TxInput>, sigHash: Bytes, height: nat, txs: set<Transaction>)
    requires From(c, u.outs, txs) && From(c, v.outs, txs) && TxidsDiffer(c, txs)
    requires AllSpendable(c, u, inputs, sigHash, height) && AllSpendable(c, v, inputs, sigHash, height)
    ensures SumInputs(u.outs, inputs) == SumInputs(v.outs, inputs)
  {
    forall i | 0 <= i < |inputs|
      ensures Spent(inputs[i]) in u.outs && Spent(inputs[i]) in v.outs && u.outs[Spent(inputs[i])] == v.outs[Spent(inputs[i])]
    {
      assert Spendable(c, u, inputs[i], sigHash, height) && Spendable(c, v, inputs[i], sigHash, height);
      SameSourceSameOutput(c, u.outs, v.outs, txs, Spent(inputs[i]));
    }
    SumInputsAgree(u.outs, v.outs, inputs);
  }

  ghost predicate FewOutputs(txs: set<Transaction>) {
    forall tx | tx in txs :: |tx.outputs| <= MAX_U32
  }

  ghost predicate SmallIndices(outs: map<Outpoint, TxOutput>) {
    forall o | o in outs :: o.index < MAX_U32
  }

  lemma FromSmallIndices(c: Crypto, outs: map<Outpoint, TxOutput>, txs: set<Transaction>)
    requires From(c, outs, txs) && FewOutputs(txs)
    ensures SmallIndices(outs)
  {
    forall o | o in outs ensures o.index < MAX_U32 {
      var tx :| tx in txs && Makes(c, tx, o, outs[o]);
    }
  }

  /** A transaction that passes validation is never a coinbase: no output has the coinbase's input index. */
  lemma ValidIsNotCoinbase(c: Crypto, u: Utxos, tx: Transaction, magic: U32, height: nat)
    requires ValidateTx(c, u, tx, magic, height).Ok? && SmallIndices(u.outs)
    ensures !IsCoinbase(tx)
  {
    if |tx.inputs| == 1 {
      ValidMeaning(c, u, tx, magic, height, ValidateTx(c, u, tx, magic, height).value);
      assert Spendable(c, u, tx.inputs[0], SigHash(c, tx, magic), height);
      assert Spent(tx.inputs[0]).index < MAX_U32;
    }
  }

  // ---------- the transactions of a block ----------

  ghost predicate AllDistinct(txs: set<Transaction>) {
    forall tx | tx in txs && !IsCoinbase(tx) :: DistinctSpends(tx.inputs)
  }

  ghost predicate AllOf(txs: seq<Transaction>, s: set<Transaction>) {
    forall i | 0 <= i < |txs| :: txs[i] in s
  }

  /** What the blocks assume of the transactions on a chain. */
  ghost predicate Clean(c: Crypto, txs: set<Transaction>) {
    TxidsDiffer(c, txs) && FewOutputs(txs) && AllDistinct(txs)
  }

  lemma {:induction false} InOrderIsApply(c: Crypto, u: Utxos, txs: seq<Transaction>, magic: U32, height: nat)
    requires CheckInOrder(c, u, txs, magic, height).Ok?
    ensures CheckInOrder(c, u, txs, magic, height).value == ApplyAll(c, u, txs)
  {
    if txs != [] { InOrderIsApply(c, u, txs[..|txs| - 1], magic, height); }
  }

  lemma {:induction false} FromApplyAll(c: Crypto, u: Utxos, txs: seq<Transaction>, s: set<Transaction>)
    requires From(c, u.outs, s) && AllOf(txs, s)
    ensures From(c, ApplyAll(c, u, txs).outs, s)
  {
    if txs != [] {
      FromApplyAll(c, u, txs[..|txs| - 1], s);
      FromApply(c, ApplyAll(c, u, txs[..|txs| - 1]), txs[|txs| - 1], s);
    }
  }

  lemma OneMoreTransaction(c: Crypto, u: Utxos, v: Utxos, tx: Transaction, magic: U32, height: nat, f: nat,
          s: set<Transaction>)
    requires From(c, u.outs, s) && From(c, v.outs, s) && Clean(c, s) && tx in s
    requires ValidateTx(c, u, tx, magic, height) == Ok(f) && ValidateTx(c, v, tx, magic, height).Ok?
    ensures Total(Apply(c, v, tx).outs) + f <= Total(v.outs)
  {
    var g := ValidateTx(c, v, tx, magic, height).value;
    SameFee(c, u, v, tx, magic, height, f, g, s);
    FromSmallIndices(c, v.outs, s);
    ValidIsNotCoinbase(c, v, tx, magic, height);
    TransactionBalance(c, v, tx, magic, height, g);
    DistinctNotRecounted(v.outs, tx.inputs);
  }

  /** The fees priced against the parent state are really given up by the transactions, taken in order. */
  lemma {:induction false} FeesAreGivenUp(c: Crypto, u: Utxos, txs: seq<Transaction>, magic: U32, height: nat,
          s: set<Transaction>)
    requires From(c, u.outs, s) && Clean(c, s) && AllOf(txs, s)
    requires TotalFees(c, u, txs, magic, height).Ok? && CheckInOrder(c, u, txs, magic, height).Ok?
    ensures Total(ApplyAll(c, u, txs).outs) + TotalFees(c, u, txs, magic, height).value <= Total(u.outs)
  {
    if txs != [] {
      var n := |txs| - 1;
      FeesAreGivenUp(c, u, txs[..n], magic, height, s);
      FromApplyAll(c, u, txs[..n], s);
      InOrderIsApply(c, u, txs[..n], magic, height);
      OneMoreTransaction(c, u, ApplyAll(c, u, txs[..n]), txs[n], magic, height, ValidateTx(c, u, txs[n], magic, height).value, s);
    }
  }

  // ---------- the coinbase is applied first ----------

  /** `a` is `b` with some entries of `extra` laid over it. */
  ghost predicate Overlay(a: map<Outpoint, TxOutput>, b: map<Outpoint, TxOutput>, extra: map<Outpoint, TxOutput>) {
    forall o | o in a :: (o in b && a[o] == b[o]) || (o in extra && a[o] == extra[o])
  }

  lemma {:induction false} TotalOverlay(a: map<Outpoint, TxOutput>, b: map<Outpoint, TxOutput>,
          extra: map<Outpoint, TxOutput>)
    requires Overlay(a, b, extra)
    ensures Total(a) <= Total(b) + Total(extra)
    decreases |a|
  {
    if a != map[] {
      var o := AnyKey(a);
      if o in b && a[o] == b[o] {
        TotalOverlay(a - {o}, b - {o}, extra);
        TotalWithout(b, o);
      } else {
        TotalOverlay(a - {o}, b, extra - {o});
        TotalWithout(extra, o);
      }
    }
  }

  lemma OverlayApply(c: Crypto, u: Utxos, v: Utxos, extra: map<Outpoint, TxOutput>, tx: Transaction)
    requires Overlay(u.outs, v.outs, extra) && !IsCoinbase(tx)
    ensures Overlay(Apply(c, u, tx).outs, Apply(c, v, tx).outs, extra)
  {
  }

  lemma {:induction false} OverlayApplyAll(c: Crypto, u: Utxos, v: Utxos, extra: map<Outpoint, TxOutput>,
          txs: seq<Transaction>)
    requires Overlay(u.outs, v.outs, extra) && forall i | 0 <= i < |txs| :: !IsCoinbase(txs[i])
    ensures Overlay(ApplyAll(c, u, txs).outs, ApplyAll(c, v, txs).outs, extra)
  {
    if txs != [] {
      OverlayApplyAll(c, u, v, extra, txs[..|txs| - 1]);
      OverlayApply(c, ApplyAll(c, u, txs[..|txs| - 1]), ApplyAll(c, v, txs[..|txs| - 1]), extra, txs[|txs| - 1]);
    }
  }

  lemma {:induction false} ApplyFirst(c: Crypto, u: Utxos, txs: seq<Transaction>)
    requires txs != []
    ensures ApplyAll(c, u, txs) == ApplyAll(c, Apply(c, u, txs[0]), txs[1..])
    decreases |txs|
  {
    var n := |txs| - 1;
    if n == 0 {
      assert txs[..0] == [] && txs[1..] == [];
    } else {
      ApplyFirst(c, u, txs[..n]);
      assert txs[..n][1..] == txs[1..][..n - 1] && txs[1..][n - 1] == txs[n];
    }
  }

  lemma NoneIsCoinbase(c: Crypto, u: Utxos, txs: seq<Transaction>, magic: U32, height: nat)
    requires SmallIndices(u.outs) && TotalFees(c, u, txs, magic, height).Ok?
    ensures forall i | 0 <= i < |txs| :: !IsCoinbase(txs[i])
  {
    forall i | 0 <= i < |txs| ensures !IsCoinbase(txs[i]) {
      ValidAgainstParent(c, u, txs, magic, height, i);
      ValidIsNotCoinbase(c, u, txs[i], magic, height);
    }
  }

  lemma CoinbaseOverlay(c: Crypto, u: Utxos, tx: Transaction)
    requires IsCoinbase(tx)
    ensures Overlay(Apply(c, u, tx).outs, u.outs, Created(Txid(c, tx), tx.outputs))
  {
  }

  lemma TotalCreated(txid: Hash, outputs: seq<TxOutput>)
    ensures Total(Created(txid, outputs)) <= SumOutputs(outputs)
  {
    TotalCreate(map[], txid, outputs);
    assert map[] + Created(txid, outputs) == Created(txid, outputs);
  }

  lemma CoinbaseAddsItsOutputs(c: Crypto, u: Utxos, coinbase: Transaction, rest: seq<Transaction>)
    requires IsCoinbase(coinbase) && forall i | 0 <= i < |rest| :: !IsCoinbase(rest[i])
    ensures Total(ApplyAll(c, Apply(c, u, coinbase), rest).outs) <= Total(ApplyAll(c, u, rest).outs) + SumOutputs(coinbase.outputs)
  {
    var made := Created(Txid(c, coinbase), coinbase.outputs);
    CoinbaseOverlay(c, u, coinbase);
    OverlayApplyAll(c, Apply(c, u, coinbase), u, made, rest);
    TotalOverlay(ApplyAll(c, Apply(c, u, coinbase), rest).outs, ApplyAll(c, u, rest).outs, made);
    TotalCreated(Txid(c, coinbase), coinbase.outputs);
  }

  lemma BlockTotal(c: Crypto, u: Utxos, txs: seq<Transaction>, magic: U32, height: nat, s: set<Transaction>)
    requires From(c, u.outs, s) && Clean(c, s) && AllOf(txs, s)
    requires txs != [] && IsCoinbase(txs[0])
    requires TotalFees(c, u, txs[1..], magic, height).Ok? && CheckInOrder(c, u, txs[1..], magic, height).Ok?
    ensures Total(ApplyAll(c, u, txs).outs) + TotalFees(c, u, txs[1..], magic, height).value
            <= Total(u.outs) + SumOutputs(txs[0].outputs)
    ensures TotalFees(c, u, txs[1..], magic, height).value <= Total(u.outs)
  {
    FromSmallIndices(c, u.outs, s);
    NoneIsCoinbase(c, u, txs[1..], magic, height);
    ApplyFirst(c, u, txs);
    CoinbaseAddsItsOutputs(c, u, txs[0], txs[1..]);
    FeesAreGivenUp(c, u, txs[1..], magic, height, s);
  }

  // ---------- every accepted chain ----------

  ghost function TxsOf(chain: seq<Block>): set<Transaction> {
    set b, tx | b in chain && tx in b.transactions :: tx
  }

  lemma {:induction false} ManyOps(txs: seq<Transaction>, i: nat)
    requires i < |txs|
    ensures |txs[i].outputs| <= UtxoOps(txs)
    decreases |txs|
  {
    if i < |txs| - 1 { ManyOps(txs[..|txs| - 1], i); }
  }

  lemma LawfulSubsidy(c: Crypto, magic: U32, chain: seq<Block>, b: Block)
    requires Lawful(c, magic, chain, b)
    ensures b.transactions != [] && IsCoinbase(b.transactions[0]) && Replay(c, chain).Some? && b.height == |chain|
    ensures var r := Replay(c, chain).value;
            var fees := TotalFees(c, r.utxo, b.transactions[1..], magic, b.height);
            && fees.Ok? && CoinbaseValue(b) <= AllowedReward(b.height, r.minted, fees.value)
            && CheckInOrder(c, r.utxo, b.transactions[1..], magic, b.height).Ok?
  {
  }

  lemma SubsidyArith(before: nat, after: nat, fees: nat, outputs: nat, minted: nat, reward: nat)
    requires after + fees <= before + outputs && fees <= before <= MAX_SUPPLY && reward <= MAX_SUPPLY && before <= minted
    requires Min(outputs, MAX_U64) <= SatAdd(Min(reward, SatSub(MAX_SUPPLY, minted)), fees)
    ensures after <= minted + Min(outputs, MAX_U64) && after <= before + reward
  {
  }

  lemma RewardIsSmall(height: nat)
    ensures BlockReward(height) <= MAX_SUPPLY
  {
    EmissionBound(height + 1);
  }

  /** A lawful block raises the unspent value by at most its scheduled reward, and by at most what it mints. */
  lemma BlockSupply(c: Crypto, magic: U32, chain: seq<Block>, b: Block, s: set<Transaction>)
    requires Lawful(c, magic, chain, b)
    requires var r := Replay(c, chain).value;
             && From(c, r.utxo.outs, s) && Clean(c, s) && AllOf(b.transactions, s)
             && Total(r.utxo.outs) <= r.minted && Total(r.utxo.outs) <= MAX_SUPPLY
    ensures var r, after := Replay(c, chain).value, Total(ApplyAll(c, Replay(c, chain).value.utxo, b.transactions).outs);
            after <= r.minted + CoinbaseValue(b) && after <= Total(r.utxo.outs) + BlockReward(|chain|)
  {
    var r := Replay(c, chain).value;
    LawfulSubsidy(c, magic, chain, b);
    BlockTotal(c, r.utxo, b.transactions, magic, b.height, s);
    RewardIsSmall(b.height);
    SubsidyArith(Total(r.utxo.outs), Total(ApplyAll(c, r.utxo, b.transactions).outs),
                 TotalFees(c, r.utxo, b.transactions[1..], magic, b.height).value,
                 SumOutputs(b.transactions[0].outputs), r.minted, BlockReward(b.height));
  }

  /** The unspent value is within what was minted and within what the schedule has emitted so far. */
  ghost predicate Bounded(c: Crypto, chain: seq<Block>, s: set<Transaction>) {
    match Replay(c, chain)
    case None => true
    case Some(r) => From(c, r.utxo.outs, s) && Total(r.utxo.outs) <= r.minted && Total(r.utxo.outs) <= Emitted(|chain|)
  }

  lemma GenesisBounded(c: Crypto, g: Block, s: set<Transaction>)
    requires IsGenesis(c, g) && AllOf(g.transactions, s)
    ensures Bounded(c, [g], s)
  {
    var tx := g.transactions[0];
    GenesisReplay(c, g);
    FromApply(c, EMPTY_UTXOS, tx, s);
    TotalCreate(map[], Txid(c, tx), tx.outputs);
    assert Emitted(1) == Emitted(0) + BlockReward(0);
  }

  lemma GenesisReplay(c: Crypto, g: Block)
    requires IsGenesis(c, g)
    ensures Replay(c, [g]) == Some(Replayed(Apply(c, EMPTY_UTXOS, g.transactions[0]), BlockReward(0)))
    ensures SumOutputs(g.transactions[0].outputs) == BlockReward(0) <= MAX_SUPPLY
  {
    var tx := g.transactions[0];
    assert tx.outputs[..0] == [];
    assert g.transactions[..0] == [];
    assert ApplyAll(c, EMPTY_UTXOS, g.transactions) == Apply(c, EMPTY_UTXOS, tx);
    ReplayStep(c, [], g);
    assert [] + [g] == [g];
  }

  lemma SupplyStep(c: Crypto, magic: U32, chain: seq<Block>, b: Block, s: set<Transaction>)
    requires Lawful(c, magic, chain, b) && Bounded(c, chain, s) && Clean(c, s) && AllOf(b.transactions, s)
    ensures Bounded(c, chain + [b], s)
  {
    ReplayStep(c, chain, b);
    LawfulSubsidy(c, magic, chain, b);
    EmissionBound(|chain|);
    BlockSupply(c, magic, chain, b, s);
    assert Emitted(|chain| + 1) == Emitted(|chain|) + BlockReward(|chain|);
    FromApplyAll(c, Replay(c, chain).value.utxo, b.transactions, s);
  }

  lemma SupplyOnBranch(c: Crypto, magic: U32, chain: seq<Block>, s: set<Transaction>, k: nat)
    requires LawfulChain(c, magic, chain) && Clean(c, s) && 1 <= k <= |chain|
    requires forall b | b in chain :: AllOf(b.transactions, s)
    ensures Bounded(c, chain[..k], s)
  {
    var good := (part: seq<Block>) => Bounded(c, part, s);
    assert chain[0] in chain;
    GenesisBounded(c, chain[0], s);
    forall before, b | b in chain && LawfulStep(c, magic)(before, b) && good(before) ensures good(before + [b]) {
      SupplyStep(c, magic, before, b, s);
    }
    StepwiseInduct(LawfulStep(c, magic), good, chain, k);
  }

  lemma LawfulOps(c: Crypto, magic: U32, chain: seq<Block>, b: Block)
    requires Lawful(c, magic, chain, b)
    ensures UtxoOps(b.transactions) <= MAX_BLOCK_UTXO_OPS && b.transactions != [] && IsCoinbase(b.transactions[0])
  {
  }

  lemma BlockOutputsAreFew(c: Crypto, magic: U32, chain: seq<Block>, i: nat, j: nat)
    requires LawfulChain(c, magic, chain) && i < |chain| && j < |chain[i].transactions|
    ensures |chain[i].transactions[j].outputs| <= MAX_U32
  {
    if i > 0 {
      LawfulAt(c, magic, chain, i);
      LawfulOps(c, magic, chain[..i], chain[i]);
      ManyOps(chain[i].transactions, j);
    }
  }

  lemma ChainOutputsAreFew(c: Crypto, magic: U32, chain: seq<Block>)
    requires LawfulChain(c, magic, chain)
    ensures FewOutputs(TxsOf(chain))
  {
    forall tx | tx in TxsOf(chain) ensures |tx.outputs| <= MAX_U32 {
      var i, j := Locate(chain, tx);
      BlockOutputsAreFew(c, magic, chain, i, j);
    }
  }

  lemma Locate(chain: seq<Block>, tx: Transaction) returns (i: nat, j: nat)
    requires tx in TxsOf(chain)
    ensures i < |chain| && j < |chain[i].transactions| && chain[i].transactions[j] == tx
  {
    var b :| b in chain && tx in b.transactions;
    i :| 0 <= i < |chain| && chain[i] == b;
    j :| 0 <= j < |b.transactions| && b.transactions[j] == tx;
  }

  lemma TxsOfCovers(chain: seq<Block>, i: nat)
    requires i < |chain|
    ensures AllOf(chain[i].transactions, TxsOf(chain))
  {
    var b := chain[i];
    forall j | 0 <= j < |b.transactions| ensures b.transactions[j] in TxsOf(chain) {
      assert b in chain && b.transactions[j] in b.transactions;
    }
  }

  /** On every accepted chain whose transactions name distinct outputs and whose ids do not collide, the
      unspent value never exceeds the minted total, nor what the schedule has emitted by that height, and so
      stays below the cap: recycled fees inflate the minted total only. */
  lemma SupplyCap(c: Crypto, magic: U32, chain: seq<Block>)
    requires LawfulChain(c, magic, chain) && Replay(c, chain).Some?
    requires TxidsDiffer(c, TxsOf(chain)) && AllDistinct(TxsOf(chain))
    ensures Total(Replay(c, chain).value.utxo.outs) <= Replay(c, chain).value.minted
    ensures Total(Replay(c, chain).value.utxo.outs) <= Emitted(|chain|) < 31_415_925_999_111_456 < MAX_SUPPLY
  {
    var s := TxsOf(chain);
    EmissionBound(|chain|);
    ChainOutputsAreFew(c, magic, chain);
    forall b | b in chain ensures AllOf(b.transactions, s) {
      var i :| 0 <= i < |chain| && chain[i] == b;
      TxsOfCovers(chain, i);
    }
    SupplyOnBranch(c, magic, chain, s, |chain|);
    assert chain[..|chain|] == chain;
  }
}
