/** The unspent-output set and transaction validation against it
    (src/transaction/utxo.rs and `validate_tx_with_utxo` in src/blockchain/chain.rs). */
module Ledger {
  import opened Basics
  import opened Transactions
  import opened Scripts

  const COINBASE_MATURITY: nat := 100
  const DUST_LIMIT: nat := 546

  datatype Outpoint = Outpoint(txid: Hash, index: nat)

  function Spent(input: TxInput): Outpoint { Outpoint(input.prevTxHash, input.prevIndex) }

  /** Unspent outputs, and the declared height of every coinbase seen. */
  datatype Utxos = Utxos(outs: map<Outpoint, TxOutput>, mined: map<Hash, nat>)

  const EMPTY_UTXOS := Utxos(map[], map[])

  function SpentSet(inputs: seq<TxInput>): set<Outpoint> { set i | i in inputs :: Spent(i) }

  function Created(txid: Hash, outputs: seq<TxOutput>): (m: map<Outpoint, TxOutput>)
    ensures forall i | 0 <= i < |outputs| :: Outpoint(txid, i) in m && m[Outpoint(txid, i)] == outputs[i]
    ensures forall o | o in m :: o.txid == txid && o.index < |outputs|
  {
    map i | 0 <= i < |outputs| :: Outpoint(txid, i) := outputs[i]
  }

  lemma CreatedGrows(txid: Hash, outputs: seq<TxOutput>, i: nat)
    requires i < |outputs|
    ensures Created(txid, outputs[..i + 1]) == Created(txid, outputs[..i])[Outpoint(txid, i) := outputs[i]]
  {
    var a, b := Created(txid, outputs[..i + 1]), Created(txid, outputs[..i])[Outpoint(txid, i) := outputs[i]];
    forall o | o in a ensures o in b && a[o] == b[o] {
      assert o == Outpoint(txid, o.index);
      assert a[o] == outputs[o.index];
    }
    forall o | o in b ensures o in a {
      assert o == Outpoint(txid, o.index);
    }
  }

  lemma UpdateSum(a: map<Outpoint, TxOutput>, b: map<Outpoint, TxOutput>, o: Outpoint, v: TxOutput)
    ensures (a + b)[o := v] == a + b[o := v]
  {
  }

  /** The set after a transaction: spent outputs go, created ones come, a coinbase records its height. */
  function Apply(c: Crypto, u: Utxos, tx: Transaction): Utxos {
    var kept := if IsCoinbase(tx) then u.outs else u.outs - SpentSet(tx.inputs);
    Utxos(
      kept + Created(Txid(c, tx), tx.outputs),
      if IsCoinbase(tx) then u.mined[Txid(c, tx) := DeclaredHeight(tx)] else u.mined)
  }

  function ApplyAll(c: Crypto, u: Utxos, txs: seq<Transaction>): Utxos {
    if txs == [] then u else Apply(c, ApplyAll(c, u, txs[..|txs| - 1]), txs[|txs| - 1])
  }

  /** Fewer than 100 confirmations since the height the coinbase declared. */
  predicate Immature(u: Utxos, txid: Hash, height: nat) {
    txid in u.mined && SatSub(height, u.mined[txid]) < COINBASE_MATURITY
  }

  /** A coinbase output can be spent from the hundredth block after the declared height on. */
  lemma MaturityExact(u: Utxos, txid: Hash, height: nat)
    ensures Immature(u, txid, height) <==> txid in u.mined && height < u.mined[txid] + 100
  {
  }

  // ---------- validation ----------

  /** Block clock used by time locks: ten minutes per block. */
  function BlockTime(height: nat): nat { height * 600 }

  predicate Spendable(c: Crypto, u: Utxos, input: TxInput, sigHash: Bytes, height: nat) {
    && !Immature(u, input.prevTxHash, height)
    && Spent(input) in u.outs
    && Satisfies(c, u.outs[Spent(input)].EffectiveScript(), input, sigHash, BlockTime(height))
  }

  /** One turn of the input loop: the new running sum, or the reason to stop. */
  function AddInput(c: Crypto, u: Utxos, sum: nat, input: TxInput, sigHash: Bytes, height: nat): Result<nat> {
    if Immature(u, input.prevTxHash, height) then Err(ImmatureCoinbase)
    else if Spent(input) !in u.outs then Err(UtxoNotFound)
    else
      var output := u.outs[Spent(input)];
      if sum + output.value > MAX_U64 then Err(InputSumOverflow)
      else if !Satisfies(c, output.EffectiveScript(), input, sigHash, BlockTime(height)) then Err(ScriptFailed)
      else Ok(sum + output.value)
  }

  /** The input loop: the running sum, or the first failure. */
  function CheckInputs(c: Crypto, u: Utxos, inputs: seq<TxInput>, sigHash: Bytes, height: nat): Result<nat> {
    if inputs == [] then Ok(0)
    else
      var before := CheckInputs(c, u, inputs[..|inputs| - 1], sigHash, height);
      if before.Err? then before else AddInput(c, u, before.value, inputs[|inputs| - 1], sigHash, height)
  }

  function SumOutputs(outputs: seq<TxOutput>): nat {
    if outputs == [] then 0 else SumOutputs(outputs[..|outputs| - 1]) + outputs[|outputs| - 1].value
  }

  predicate NoDust(outputs: seq<TxOutput>) {
    forall i | 0 <= i < |outputs| :: outputs[i].value >= DUST_LIMIT
  }

  /** The fee of a valid transaction, or the reason it is not valid. */
  function ValidateTx(c: Crypto, u: Utxos, tx: Transaction, magic: U32, height: nat): Result<nat> {
    var ins := CheckInputs(c, u, tx.inputs, SigHash(c, tx, magic), height);
    if ins.Err? then ins
    else if !NoDust(tx.outputs) then Err(Dust)
    else if SumOutputs(tx.outputs) > MAX_U64 then Err(OutputSumOverflow)
    else if ins.value < SumOutputs(tx.outputs) then Err(OutputsExceedInputs)
    else Ok(ins.value - SumOutputs(tx.outputs))
  }

  // ---------- what validation means ----------

  /** Value named by the inputs, counted once per input. */
  function SumInputs(outs: map<Outpoint, TxOutput>, inputs: seq<TxInput>): nat {
    if inputs == [] then 0
    else
      var o := Spent(inputs[|inputs| - 1]);
      SumInputs(outs, inputs[..|inputs| - 1]) + if o in outs then outs[o].value else 0
  }

  predicate AllSpendable(c: Crypto, u: Utxos, inputs: seq<TxInput>, sigHash: Bytes, height: nat) {
    forall i | 0 <= i < |inputs| :: Spendable(c, u, inputs[i], sigHash, height)
  }

  lemma {:induction false} CheckInputsMeaning(c: Crypto, u: Utxos, inputs: seq<TxInput>, sigHash: Bytes, height: nat)
    ensures CheckInputs(c, u, inputs, sigHash, height).Ok? <==>
            AllSpendable(c, u, inputs, sigHash, height) && SumInputs(u.outs, inputs) <= MAX_U64
    ensures CheckInputs(c, u, inputs, sigHash, height).Ok? ==>
            CheckInputs(c, u, inputs, sigHash, height).value == SumInputs(u.outs, inputs)
  {
    if inputs != [] {
      var n := |inputs| - 1;
      CheckInputsMeaning(c, u, inputs[..n], sigHash, height);
      assert AllSpendable(c, u, inputs, sigHash, height) <==>
             AllSpendable(c, u, inputs[..n], sigHash, height) && Spendable(c, u, inputs[n], sigHash, height) by {
        assert forall i | 0 <= i < n :: inputs[..n][i] == inputs[i];
      }
    }
  }

  /** A transaction is valid with fee `fee` exactly when every input is spendable, no output is dust,
      neither sum leaves u64, and the fee is what the inputs hold beyond the outputs. */
  lemma ValidMeaning(c: Crypto, u: Utxos, tx: Transaction, magic: U32, height: nat, fee: nat)
    ensures ValidateTx(c, u, tx, magic, height) == Ok(fee) <==>
            && AllSpendable(c, u, tx.inputs, SigHash(c, tx, magic), height)
            && SumInputs(u.outs, tx.inputs) <= MAX_U64
            && NoDust(tx.outputs)
            && SumInputs(u.outs, tx.inputs) == SumOutputs(tx.outputs) + fee
  {
    CheckInputsMeaning(c, u, tx.inputs, SigHash(c, tx, magic), height);
  }

  // ---------- validity persists ----------

  /** `v` still holds, unchanged, everything `u` says about the outputs these inputs spend. */
  ghost predicate AgreeOn(u: Utxos, v: Utxos, inputs: seq<TxInput>) {
    forall i | 0 <= i < |inputs| ::
      && (Spent(inputs[i]) in u.outs ==> Spent(inputs[i]) in v.outs && v.outs[Spent(inputs[i])] == u.outs[Spent(inputs[i])])
      && (inputs[i].prevTxHash in v.mined ==>
            inputs[i].prevTxHash in u.mined && v.mined[inputs[i].prevTxHash] == u.mined[inputs[i].prevTxHash])
  }

  lemma {:induction false} SumInputsAgree(u: map<Outpoint, TxOutput>, v: map<Outpoint, TxOutput>, inputs: seq<TxInput>)
    requires forall i | 0 <= i < |inputs| :: Spent(inputs[i]) in u && Spent(inputs[i]) in v
                                             && u[Spent(inputs[i])] == v[Spent(inputs[i])]
    ensures SumInputs(u, inputs) == SumInputs(v, inputs)
  {
    if inputs != [] {
      SumInputsAgree(u, v, inputs[..|inputs| - 1]);
    }
  }

  lemma SpendableLater(c: Crypto, u: Utxos, v: Utxos, inputs: seq<TxInput>, i: nat, sigHash: Bytes, h0: nat, h1: nat)
    requires i < |inputs| && AgreeOn(u, v, inputs) && h0 <= h1
    requires Spendable(c, u, inputs[i], sigHash, h0)
    ensures Spendable(c, v, inputs[i], sigHash, h1)
  {
    var o := u.outs[Spent(inputs[i])];
    SatisfiesLater(c, o.EffectiveScript(), inputs[i], sigHash, BlockTime(h0), BlockTime(h1));
  }

  /** A transaction valid at one height keeps its validity and its fee at every later height, through
      maturity and time locks, as long as the outputs it spends are still there. */
  lemma ValidLater(c: Crypto, u: Utxos, v: Utxos, tx: Transaction, magic: U32, h0: nat, h1: nat)
    requires ValidateTx(c, u, tx, magic, h0).Ok? && AgreeOn(u, v, tx.inputs) && h0 <= h1
    ensures ValidateTx(c, v, tx, magic, h1) == ValidateTx(c, u, tx, magic, h0)
  {
    var fee := ValidateTx(c, u, tx, magic, h0).value;
    var sigHash := SigHash(c, tx, magic);
    ValidMeaning(c, u, tx, magic, h0, fee);
    forall i | 0 <= i < |tx.inputs| ensures Spendable(c, v, tx.inputs[i], sigHash, h1) {
      SpendableLater(c, u, v, tx.inputs, i, sigHash, h0, h1);
    }
    SumInputsAgree(u.outs, v.outs, tx.inputs);
    ValidMeaning(c, v, tx, magic, h1, fee);
  }
}

/** The in-place unspent-output set, proved against the values of `Ledger`. */
module UtxoStore {
  import opened Basics
  import opened Transactions
  import opened Scripts
  import opened Ledger

  class UtxoSet {
    var utxos: map<Outpoint, TxOutput>
    var coinbaseHeights: map<Hash, nat>

    function View(): Utxos
      reads this
    {
      Utxos(utxos, coinbaseHeights)
    }

    constructor ()
      ensures View() == EMPTY_UTXOS
    {
      utxos, coinbaseHeights := map[], map[];
    }

    /** `clone`. */
    constructor Copy(u: Utxos)
      ensures View() == u
    {
      utxos, coinbaseHeights := u.outs, u.mined;
    }

    method RemoveSpent(inputs: seq<TxInput>)
      modifies this`utxos
      ensures utxos == old(utxos) - SpentSet(inputs)
    {
      for i := 0 to |inputs|
        invariant utxos == old(utxos) - SpentSet(inputs[..i])
      {
        utxos := utxos - {Spent(inputs[i])};
        assert SpentSet(inputs[..i + 1]) == SpentSet(inputs[..i]) + {Spent(inputs[i])};
      }
      assert inputs[..|inputs|] == inputs;
    }

    method InsertCreated(txid: Hash, outputs: seq<TxOutput>)
      modifies this`utxos
      ensures utxos == old(utxos) + Created(txid, outputs)
    {
      for i := 0 to |outputs|
        invariant utxos == old(utxos) + Created(txid, outputs[..i])
      {
        utxos := utxos[Outpoint(txid, i) := outputs[i]];
        CreatedGrows(txid, outputs, i);
        UpdateSum(old(utxos), Created(txid, outputs[..i]), Outpoint(txid, i), outputs[i]);
      }
      assert outputs[..|outputs|] == outputs;
    }

    method ApplyTransaction(c: Crypto, tx: Transaction)
      modifies this
      ensures View() == Apply(c, old(View()), tx)
    {
      if !IsCoinbase(tx) {
        RemoveSpent(tx.inputs);
      }
      var txid := Txid(c, tx);
      if IsCoinbase(tx) {
        coinbaseHeights := coinbaseHeights[txid := DeclaredHeight(tx)];
      }
      InsertCreated(txid, tx.outputs);
    }

    method ApplyTransactions(c: Crypto, txs: seq<Transaction>)
      modifies this
      ensures View() == ApplyAll(c, old(View()), txs)
    {
      for i := 0 to |txs|
        invariant View() == ApplyAll(c, old(View()), txs[..i])
      {
        ApplyTransaction(c, txs[i]);
        assert txs[..i + 1][..i] == txs[..i];
      }
      assert txs[..|txs|] == txs;
    }
  }

  method CheckInput(c: Crypto, u: Utxos, sum: nat, input: TxInput, sigHash: Bytes, height: nat) returns (r: Result<nat>)
    ensures r == AddInput(c, u, sum, input, sigHash, height)
  {
    if Immature(u, input.prevTxHash, height) { return Err(ImmatureCoinbase); }
    if Spent(input) !in u.outs { return Err(UtxoNotFound); }
    var output := u.outs[Spent(input)];
    if sum + output.value > MAX_U64 { return Err(InputSumOverflow); }
    var ok := EvaluateScript(c, output.EffectiveScript(), input, sigHash, BlockTime(height));
    if !ok { return Err(ScriptFailed); }
    r := Ok(sum + output.value);
  }

  method SumInputValues(c: Crypto, u: Utxos, inputs: seq<TxInput>, sigHash: Bytes, height: nat) returns (r: Result<nat>)
    ensures r == CheckInputs(c, u, inputs, sigHash, height)
  {
    r := Ok(0);
    for i := 0 to |inputs|
      invariant r.Ok? && r == CheckInputs(c, u, inputs[..i], sigHash, height)
    {
      r := CheckInput(c, u, r.value, inputs[i], sigHash, height);
      assert inputs[..i + 1][..i] == inputs[..i];
      if r.Err? {
        PrefixFails(c, u, inputs, i + 1, sigHash, height);
        return;
      }
    }
    assert inputs[..|inputs|] == inputs;
  }

  /** A failure on a prefix of the inputs is the failure of the whole list. */
  lemma {:induction false} PrefixFails(c: Crypto, u: Utxos, inputs: seq<TxInput>, k: nat, sigHash: Bytes, height: nat)
    requires k <= |inputs|
    ensures CheckInputs(c, u, inputs[..k], sigHash, height).Err? ==>
            CheckInputs(c, u, inputs, sigHash, height) == CheckInputs(c, u, inputs[..k], sigHash, height)
    decreases |inputs|
  {
    if k < |inputs| {
      PrefixFails(c, u, inputs[..|inputs| - 1], k, sigHash, height);
      assert inputs[..|inputs| - 1][..k] == inputs[..k];
    } else {
      assert inputs[..k] == inputs;
    }
  }

  method SumOutputValues(outputs: seq<TxOutput>) returns (r: Result<nat>)
    ensures r == if SumOutputs(outputs) > MAX_U64 then Err(OutputSumOverflow) else Ok(SumOutputs(outputs))
  {
    var sum := 0;
    for i := 0 to |outputs|
      invariant sum == SumOutputs(outputs[..i]) && sum <= MAX_U64
    {
      assert outputs[..i + 1][..i] == outputs[..i];
      PrefixSum(outputs, i + 1);
      if sum + outputs[i].value > MAX_U64 { return Err(OutputSumOverflow); }
      sum := sum + outputs[i].value;
    }
    assert outputs[..|outputs|] == outputs;
    r := Ok(sum);
  }

  lemma {:induction false} PrefixSum(outputs: seq<TxOutput>, k: nat)
    requires k <= |outputs|
    ensures SumOutputs(outputs[..k]) <= SumOutputs(outputs)
    decreases |outputs|
  {
    if k < |outputs| {
      PrefixSum(outputs[..|outputs| - 1], k);
      assert outputs[..|outputs| - 1][..k] == outputs[..k];
    } else {
      assert outputs[..k] == outputs;
    }
  }

  method ClearsDust(outputs: seq<TxOutput>) returns (ok: bool)
    ensures ok == NoDust(outputs)
  {
    for i := 0 to |outputs|
      invariant NoDust(outputs[..i])
    {
      if outputs[i].value < DUST_LIMIT { return false; }
    }
    assert outputs[..|outputs|] == outputs;
    ok := true;
  }

  /** `validate_tx_with_utxo`: one pass over the inputs, one over the outputs. */
  method ValidateTransaction(c: Crypto, u: Utxos, tx: Transaction, magic: U32, height: nat) returns (r: Result<nat>)
    ensures r == ValidateTx(c, u, tx, magic, height)
  {
    var sigHash := ComputeSigHash(c, tx, magic);
    var ins := SumInputValues(c, u, tx.inputs, sigHash, height);
    if ins.Err? { return ins; }
    var clear := ClearsDust(tx.outputs);
    if !clear { return Err(Dust); }
    var outs := SumOutputValues(tx.outputs);
    if outs.Err? { return outs; }
    if ins.value < outs.value { return Err(OutputsExceedInputs); }
    r := Ok(ins.value - outs.value);
  }
}
