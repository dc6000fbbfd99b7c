/** No output is spent twice on any accepted branch. */
module DoubleSpend {
  import opened Basics
  import opened Transactions
  import opened Ledger
  import opened Blocks
  import opened Supply

  /** All transactions of a branch, in the order they take effect. */
  function Flatten(chain: seq<Block>): seq<Transaction> {
    if chain == [] then [] else Flatten(chain[..|chain| - 1]) + chain[|chain| - 1].transactions
  }

  ghost function MadeBy(c: Crypto, tx: Transaction): set<Outpoint> {
    Created(Txid(c, tx), tx.outputs).Keys
  }

  ghost function UsedBy(tx: Transaction): set<Outpoint> {
    if IsCoinbase(tx) then {} else SpentSet(tx.inputs)
  }

  /** Every outpoint ever created, and ever spent, by a list of transactions. */
  ghost function Made(c: Crypto, txs: seq<Transaction>): set<Outpoint> {
    if txs == [] then {} else Made(c, txs[..|txs| - 1]) + MadeBy(c, txs[|txs| - 1])
  }

  ghost function Used(txs: seq<Transaction>): set<Outpoint> {
    if txs == [] then {} else Used(txs[..|txs| - 1]) + UsedBy(txs[|txs| - 1])
  }

  ghost function Unspent(c: Crypto, txs: seq<Transaction>): set<Outpoint> {
    ApplyAll(c, EMPTY_UTXOS, txs).outs.Keys
  }

  // ---------- orderly histories ----------

  /** What a transaction must bring when it takes effect after `before`. */
  ghost predicate Orderly(c: Crypto, before: seq<Transaction>, tx: Transaction) {
    if IsCoinbase(tx) then tx !in before
    else UsedBy(tx) <= Unspent(c, before) && (tx.inputs == [] ==> tx.outputs == [])
  }

  ghost predicate OrderlyHistory(c: Crypto, txs: seq<Transaction>) {
    forall k | 0 <= k < |txs| :: Orderly(c, txs[..k], txs[k])
  }

  lemma ApplyKeys(c: Crypto, u: Utxos, tx: Transaction)
    ensures Apply(c, u, tx).outs.Keys == (u.outs.Keys - UsedBy(tx)) + MadeBy(c, tx)
  {
  }

  lemma {:induction false} MadeHasMaker(c: Crypto, txs: seq<Transaction>, o: Outpoint) returns (tx: Transaction)
    requires o in Made(c, txs)
    ensures tx in txs && Txid(c, tx) == o.txid
  {
    var n := |txs| - 1;
    if o in MadeBy(c, txs[n]) {
      tx := txs[n];
    } else {
      tx := MadeHasMaker(c, txs[..n], o);
    }
  }

  lemma {:induction false} UsedHas(txs: seq<Transaction>, k: nat)
    requires k < |txs|
    ensures UsedBy(txs[k]) <= Used(txs)
    decreases |txs|
  {
    if k < |txs| - 1 { UsedHas(txs[..|txs| - 1], k); }
  }

  /** A transaction that takes effect in order creates only outpoints nobody has created before. */
  lemma CreatesFresh(c: Crypto, before: seq<Transaction>, tx: Transaction, s: set<Transaction>)
    requires Orderly(c, before, tx) && TxidsDiffer(c, s) && AllOf(before, s) && tx in s
    requires Unspent(c, before) == Made(c, before) - Used(before)
    ensures MadeBy(c, tx) !! Made(c, before)
  {
    forall o | o in MadeBy(c, tx) && o in Made(c, before) ensures false {
      var t := MadeHasMaker(c, before, o);
      assert t == tx;
      AgainIsEmpty(c, before, tx);
    }
  }

  lemma AgainIsEmpty(c: Crypto, before: seq<Transaction>, tx: Transaction)
    requires Orderly(c, before, tx) && tx in before
    requires Unspent(c, before) == Made(c, before) - Used(before)
    ensures tx.outputs == []
  {
    var k :| 0 <= k < |before| && before[k] == tx;
    UsedHas(before, k);
    assert UsedBy(tx) == {};
    NoSpends(tx.inputs);
  }

  lemma NoSpends(inputs: seq<TxInput>)
    ensures SpentSet(inputs) == {} <==> inputs == []
  {
    if inputs != [] {
      assert Spent(inputs[0]) in SpentSet(inputs);
    }
  }

  ghost predicate Balanced(c: Crypto, txs: seq<Transaction>) {
    Unspent(c, txs) == Made(c, txs) - Used(txs) && Used(txs) <= Made(c, txs)
  }

  ghost function BalancedAt(c: Crypto, txs: seq<Transaction>): nat -> bool {
    (k: nat) => k <= |txs| && Balanced(c, txs[..k])
  }

  lemma BalancedNext(c: Crypto, txs: seq<Transaction>, k: nat, s: set<Transaction>)
    requires k < |txs| && Orderly(c, txs[..k], txs[k]) && TxidsDiffer(c, s) && AllOf(txs, s) && Balanced(c, txs[..k])
    ensures Balanced(c, txs[..k + 1])
  {
    TakeEffect(c, txs[..k], txs[k], s);
    assert txs[..k] + [txs[k]] == txs[..k + 1];
  }

  /** In an orderly history the unspent outputs are exactly those created and not spent. */
  lemma UnspentExactly(c: Crypto, txs: seq<Transaction>, k: nat, s: set<Transaction>)
    requires OrderlyHistory(c, txs) && TxidsDiffer(c, s) && AllOf(txs, s) && k <= |txs|
    ensures Balanced(c, txs[..k])
  {
    forall j: nat | j < k && BalancedAt(c, txs)(j) ensures BalancedAt(c, txs)(j + 1) {
      BalancedNext(c, txs, j, s);
    }
    Induct(BalancedAt(c, txs), k);
  }

  lemma TakeEffect(c: Crypto, before: seq<Transaction>, tx: Transaction, s: set<Transaction>)
    requires Orderly(c, before, tx) && TxidsDiffer(c, s) && AllOf(before, s) && tx in s
    requires Balanced(c, before)
    ensures Balanced(c, before + [tx])
  {
    var after := before + [tx];
    assert after[..|before|] == before;
    CreatesFresh(c, before, tx, s);
    ApplyKeys(c, ApplyAll(c, EMPTY_UTXOS, before), tx);
    assert UsedBy(tx) <= Unspent(c, before);
    BalanceArith(Unspent(c, before), Made(c, before), Used(before), MadeBy(c, tx), UsedBy(tx));
  }

  lemma BalanceArith(unspent: set<Outpoint>, made: set<Outpoint>, used: set<Outpoint>, new_: set<Outpoint>,
          spent: set<Outpoint>)
    requires unspent == made - used && used <= made && spent <= unspent && new_ !! made
    ensures (unspent - spent) + new_ == (made + new_) - (used + spent)
    ensures used + spent <= made + new_
  {
  }

  lemma {:induction false} UsedGrows(txs: seq<Transaction>, p: nat, q: nat)
    requires p < q <= |txs|
    ensures UsedBy(txs[p]) <= Used(txs[..q])
    decreases q
  {
    assert txs[..q][..q - 1] == txs[..q - 1];
    if p < q - 1 { UsedGrows(txs, p, q - 1); }
  }

  /** No two transactions of an orderly history spend the same outpoint. */
  lemma SpendsAreDisjoint(c: Crypto, txs: seq<Transaction>, p: nat, q: nat, s: set<Transaction>)
    requires OrderlyHistory(c, txs) && TxidsDiffer(c, s) && AllOf(txs, s) && p < q < |txs|
    ensures UsedBy(txs[p]) !! UsedBy(txs[q])
  {
    UnspentExactly(c, txs, q, s);
    UsedGrows(txs, p, q);
    assert Orderly(c, txs[..q], txs[q]);
  }

  // ---------- lawful branches are orderly ----------

  lemma {:induction false} ApplyAllIsFold(c: Crypto, u: Utxos, txs: seq<Transaction>)
    ensures ApplyAll(c, u, txs) == Fold((v, tx) => Apply(c, v, tx), u, txs)
  {
    if txs != [] { ApplyAllIsFold(c, u, txs[..|txs| - 1]); }
  }

  lemma ApplyAllAppend(c: Crypto, u: Utxos, a: seq<Transaction>, b: seq<Transaction>)
    ensures ApplyAll(c, u, a + b) == ApplyAll(c, ApplyAll(c, u, a), b)
  {
    ApplyAllIsFold(c, u, a);
    ApplyAllIsFold(c, ApplyAll(c, u, a), b);
    ApplyAllIsFold(c, u, a + b);
    FoldAppend((v, tx) => Apply(c, v, tx), u, a, b);
  }

  lemma {:induction false} ReplayIsFlat(c: Crypto, chain: seq<Block>)
    requires Replay(c, chain).Some?
    ensures Replay(c, chain).value.utxo == ApplyAll(c, EMPTY_UTXOS, Flatten(chain))
  {
    if chain != [] {
      var n := |chain| - 1;
      ReplayIsFlat(c, chain[..n]);
      ApplyAllAppend(c, EMPTY_UTXOS, Flatten(chain[..n]), chain[n].transactions);
    }
  }

  lemma ApplyMonotone(c: Crypto, u: Utxos, v: Utxos, tx: Transaction)
    requires u.outs.Keys <= v.outs.Keys
    ensures Apply(c, u, tx).outs.Keys <= Apply(c, v, tx).outs.Keys
  {
    ApplyKeys(c, u, tx);
    ApplyKeys(c, v, tx);
  }

  lemma {:induction false} ApplyAllMonotone(c: Crypto, u: Utxos, v: Utxos, txs: seq<Transaction>)
    requires u.outs.Keys <= v.outs.Keys
    ensures ApplyAll(c, u, txs).outs.Keys <= ApplyAll(c, v, txs).outs.Keys
  {
    if txs != [] {
      ApplyAllMonotone(c, u, v, txs[..|txs| - 1]);
      ApplyMonotone(c, ApplyAll(c, u, txs[..|txs| - 1]), ApplyAll(c, v, txs[..|txs| - 1]), txs[|txs| - 1]);
    }
  }

  lemma ValidSpendsPresent(c: Crypto, u: Utxos, tx: Transaction, magic: U32, height: nat)
    requires ValidateTx(c, u, tx, magic, height).Ok?
    ensures SpentSet(tx.inputs) <= u.outs.Keys
    ensures tx.inputs == [] ==> tx.outputs == []
  {
    var fee := ValidateTx(c, u, tx, magic, height).value;
    ValidMeaning(c, u, tx, magic, height, fee);
    forall o | o in SpentSet(tx.inputs) ensures o in u.outs {
      var i :| 0 <= i < |tx.inputs| && Spent(tx.inputs[i]) == o;
      assert Spendable(c, u, tx.inputs[i], SigHash(c, tx, magic), height);
    }
    if tx.inputs == [] { InputlessIsEmpty(c, u, tx, magic, height, fee); }
  }

  lemma CoinbaseFirst(c: Crypto, u: Utxos, txs: seq<Transaction>)
    requires txs != [] && IsCoinbase(txs[0])
    ensures ApplyAll(c, u, txs[1..]).outs.Keys <= ApplyAll(c, u, txs).outs.Keys
  {
    ApplyKeys(c, u, txs[0]);
    ApplyAllMonotone(c, u, Apply(c, u, txs[0]), txs[1..]);
    ApplyFirst(c, u, txs);
  }

  /** The j-th transaction after the coinbase spends only what the replayed block still holds at that point. */
  lemma LaterIsOrderly(c: Crypto, u: Utxos, txs: seq<Transaction>, magic: U32, height: nat, j: nat)
    requires txs != [] && IsCoinbase(txs[0]) && 1 <= j < |txs|
    requires CheckInOrder(c, u, txs[1..], magic, height).Ok?
    ensures SpentSet(txs[j].inputs) <= ApplyAll(c, u, txs[..j]).outs.Keys
    ensures txs[j].inputs == [] ==> txs[j].outputs == []
  {
    InOrderSpends(c, u, txs[1..], magic, height, j - 1);
    CoinbaseFirst(c, u, txs[..j]);
    assert txs[..j][1..] == txs[1..][..j - 1];
  }

  lemma InOrderSpends(c: Crypto, u: Utxos, rest: seq<Transaction>, magic: U32, height: nat, j: nat)
    requires j < |rest| && CheckInOrder(c, u, rest, magic, height).Ok?
    ensures SpentSet(rest[j].inputs) <= ApplyAll(c, u, rest[..j]).outs.Keys
    ensures rest[j].inputs == [] ==> rest[j].outputs == []
  {
    var v, fee := ValidInOrder(c, u, rest, magic, height, j);
    ValidSpendsPresent(c, v, rest[j], magic, height);
    InOrderIsApply(c, u, rest[..j], magic, height);
  }

  lemma BlockIsOrderly(c: Crypto, before: seq<Transaction>, txs: seq<Transaction>, magic: U32, height: nat, j: nat)
    requires txs != [] && IsCoinbase(txs[0]) && txs[0] !in before && j < |txs|
    requires j > 0 ==> !IsCoinbase(txs[j])
    requires CheckInOrder(c, ApplyAll(c, EMPTY_UTXOS, before), txs[1..], magic, height).Ok?
    ensures Orderly(c, before + txs[..j], txs[j])
  {
    if j == 0 {
      assert before + txs[..0] == before;
    } else {
      LaterIsOrderly(c, ApplyAll(c, EMPTY_UTXOS, before), txs, magic, height, j);
      ApplyAllAppend(c, EMPTY_UTXOS, before, txs[..j]);
    }
  }

  lemma AppendOrderly(c: Crypto, before: seq<Transaction>, txs: seq<Transaction>)
    requires OrderlyHistory(c, before)
    requires forall j | 0 <= j < |txs| :: Orderly(c, before + txs[..j], txs[j])
    ensures OrderlyHistory(c, before + txs)
  {
    var all := before + txs;
    forall k | 0 <= k < |all| ensures Orderly(c, all[..k], all[k]) {
      if k < |before| {
        assert all[..k] == before[..k];
      } else {
        assert all[..k] == before + txs[..k - |before|];
      }
    }
  }

  /** What a lawful block says about its transactions, in terms of the flat history before it. */
  lemma LawfulBody(c: Crypto, magic: U32, chain: seq<Block>, b: Block)
    requires Lawful(c, magic, chain, b)
    ensures b.transactions != [] && IsCoinbase(b.transactions[0])
    ensures var u := ApplyAll(c, EMPTY_UTXOS, Flatten(chain));
            && TotalFees(c, u, b.transactions[1..], magic, b.height).Ok?
            && CheckInOrder(c, u, b.transactions[1..], magic, b.height).Ok?
  {
    ReplayIsFlat(c, chain);
  }

  /** No two blocks of the branch carry the same coinbase. */
  ghost predicate CoinbasesDiffer(chain: seq<Block>) {
    forall i, j | 0 <= i < j < |chain| && chain[i].transactions != [] && chain[j].transactions != []
      :: chain[i].transactions[0] != chain[j].transactions[0]
  }

  lemma {:induction false} FlattenFinds(chain: seq<Block>, tx: Transaction) returns (i: nat)
    requires tx in Flatten(chain)
    ensures i < |chain| && tx in chain[i].transactions
  {
    var n := |chain| - 1;
    if tx in chain[n].transactions { i := n; } else { i := FlattenFinds(chain[..n], tx); }
  }

  lemma FlattenWithin(chain: seq<Block>)
    ensures AllOf(Flatten(chain), TxsOf(chain))
  {
    forall k | 0 <= k < |Flatten(chain)| ensures Flatten(chain)[k] in TxsOf(chain) {
      var i := FlattenFinds(chain, Flatten(chain)[k]);
      assert chain[i] in chain;
    }
  }

  /** A branch with the facts the history argument needs. */
  ghost predicate SoundBranch(c: Crypto, magic: U32, chain: seq<Block>) {
    LawfulChain(c, magic, chain) && CoinbasesDiffer(chain) && TxidsDiffer(c, TxsOf(chain))
  }

  lemma UnspentIndicesAreSmall(c: Crypto, magic: U32, chain: seq<Block>, k: nat)
    requires LawfulChain(c, magic, chain) && k <= |chain|
    ensures SmallIndices(ApplyAll(c, EMPTY_UTXOS, Flatten(chain[..k])).outs)
  {
    var s := TxsOf(chain);
    ChainOutputsAreFew(c, magic, chain);
    FlattenWithin(chain[..k]);
    TxsOfPrefix(chain, k);
    var flat := Flatten(chain[..k]);
    FromApplyAll(c, EMPTY_UTXOS, flat, s);
    FromSmallIndices(c, ApplyAll(c, EMPTY_UTXOS, flat).outs, s);
  }

  lemma TxsOfPrefix(chain: seq<Block>, k: nat)
    requires k <= |chain|
    ensures TxsOf(chain[..k]) <= TxsOf(chain)
  {
    forall t | t in TxsOf(chain[..k]) ensures t in TxsOf(chain) {
      var i, j := Locate(chain[..k], t);
      TxsOfCovers(chain, i);
      assert chain[i].transactions[j] == t;
    }
  }

  /** No transaction but the first of a block is a coinbase. */
  lemma OnlyFirstIsCoinbase(c: Crypto, magic: U32, chain: seq<Block>, i: nat, j: nat)
    requires LawfulChain(c, magic, chain) && i < |chain| && 1 <= j < |chain[i].transactions|
    ensures !IsCoinbase(chain[i].transactions[j])
  {
    if i > 0 {
      LawfulAt(c, magic, chain, i);
      LawfulBody(c, magic, chain[..i], chain[i]);
      UnspentIndicesAreSmall(c, magic, chain, i);
      NoneIsCoinbase(c, ApplyAll(c, EMPTY_UTXOS, Flatten(chain[..i])), chain[i].transactions[1..], magic, chain[i].height);
      assert chain[i].transactions[1..][j - 1] == chain[i].transactions[j];
    }
  }

  lemma CoinbaseIsNew(c: Crypto, magic: U32, chain: seq<Block>, i: nat)
    requires SoundBranch(c, magic, chain) && i < |chain|
    requires chain[i].transactions != [] && IsCoinbase(chain[i].transactions[0])
    ensures chain[i].transactions[0] !in Flatten(chain[..i])
  {
    var tx := chain[i].transactions[0];
    if tx in Flatten(chain[..i]) {
      var k := FlattenFinds(chain[..i], tx);
      var j :| 0 <= j < |chain[k].transactions| && chain[k].transactions[j] == tx;
      if j > 0 { OnlyFirstIsCoinbase(c, magic, chain, k, j); }
    }
  }

  lemma BranchStep(c: Crypto, magic: U32, chain: seq<Block>, i: nat)
    requires SoundBranch(c, magic, chain) && 1 <= i < |chain| && OrderlyHistory(c, Flatten(chain[..i]))
    ensures OrderlyHistory(c, Flatten(chain[..i]) + chain[i].transactions)
  {
    var txs, before := chain[i].transactions, Flatten(chain[..i]);
    LawfulAt(c, magic, chain, i);
    LawfulBody(c, magic, chain[..i], chain[i]);
    CoinbaseIsNew(c, magic, chain, i);
    forall j | 0 <= j < |txs| ensures Orderly(c, before + txs[..j], txs[j]) {
      if j > 0 { OnlyFirstIsCoinbase(c, magic, chain, i, j); }
      BlockIsOrderly(c, before, txs, magic, chain[i].height, j);
    }
    AppendOrderly(c, before, txs);
  }

  lemma GenesisIsOrderly(c: Crypto, g: Block)
    requires IsGenesis(c, g)
    ensures OrderlyHistory(c, Flatten([g]))
  {
    assert [g][..0] == [];
    assert Flatten([g]) == g.transactions;
  }

  lemma {:induction false} BranchIsOrderly(c: Crypto, magic: U32, chain: seq<Block>, i: nat)
    requires SoundBranch(c, magic, chain) && 1 <= i <= |chain|
    ensures OrderlyHistory(c, Flatten(chain[..i]))
    decreases i
  {
    if i == 1 {
      GenesisIsOrderly(c, chain[0]);
      assert chain[..1] == [chain[0]];
    } else {
      BranchIsOrderly(c, magic, chain, i - 1);
      BranchStep(c, magic, chain, i - 1);
      assert chain[..i][..i - 1] == chain[..i - 1];
    }
  }

  // ---------- the theorems ----------

  /** No two different transactions of an accepted branch spend the same outpoint. */
  lemma NoDoubleSpend(c: Crypto, magic: U32, chain: seq<Block>, p: nat, q: nat)
    requires SoundBranch(c, magic, chain) && p < q < |Flatten(chain)|
    ensures UsedBy(Flatten(chain)[p]) !! UsedBy(Flatten(chain)[q])
  {
    assert chain[..|chain|] == chain;
    BranchIsOrderly(c, magic, chain, |chain|);
    FlattenWithin(chain);
    SpendsAreDisjoint(c, Flatten(chain), p, q, TxsOf(chain));
  }

  lemma {:induction false} UnspentWereMade(c: Crypto, txs: seq<Transaction>)
    ensures Unspent(c, txs) <= Made(c, txs)
  {
    if txs != [] {
      UnspentWereMade(c, txs[..|txs| - 1]);
      ApplyKeys(c, ApplyAll(c, EMPTY_UTXOS, txs[..|txs| - 1]), txs[|txs| - 1]);
    }
  }

  /** Every input of a non-first transaction names an output created in an earlier block of the branch. */
  lemma SpendsEarlierBlocks(c: Crypto, magic: U32, chain: seq<Block>, i: nat, j: nat)
    requires LawfulChain(c, magic, chain) && 1 <= i < |chain| && 1 <= j < |chain[i].transactions|
    ensures SpentSet(chain[i].transactions[j].inputs) <= Made(c, Flatten(chain[..i]))
  {
    LawfulAt(c, magic, chain, i);
    LawfulBody(c, magic, chain[..i], chain[i]);
    UnspentWereMade(c, Flatten(chain[..i]));
    SpendsParent(c, ApplyAll(c, EMPTY_UTXOS, Flatten(chain[..i])), chain[i].transactions, magic, chain[i].height, j);
  }

  lemma SpendsParent(c: Crypto, u: Utxos, txs: seq<Transaction>, magic: U32, height: nat, j: nat)
    requires 1 <= j < |txs| && TotalFees(c, u, txs[1..], magic, height).Ok?
    ensures SpentSet(txs[j].inputs) <= u.outs.Keys
  {
    ValidAgainstParent(c, u, txs[1..], magic, height, j - 1);
    assert txs[1..][j - 1] == txs[j];
    ValidSpendsPresent(c, u, txs[j], magic, height);
  }

  /** Coinbases that declare the height of their block all differ. */
  lemma DeclaredHeightsDiffer(chain: seq<Block>)
    requires forall i | 0 <= i < |chain| ::
               && chain[i].transactions != [] && IsCoinbase(chain[i].transactions[0])
               && DeclaredHeight(chain[i].transactions[0]) == i
    ensures CoinbasesDiffer(chain)
  {
    forall i, j | 0 <= i < j < |chain| ensures chain[i].transactions[0] != chain[j].transactions[0] {
      assert DeclaredHeight(chain[i].transactions[0]) == i && DeclaredHeight(chain[j].transactions[0]) == j;
    }
  }
}
