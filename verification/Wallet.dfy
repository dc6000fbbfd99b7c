/** Outpoint keys as text (`UtxoSet::key` and the parsing in `utxos_for`, src/transaction/utxo.rs). */
module OutpointKeys {
  import opened Basics
  import opened Transactions
  import opened Ledger
  import opened Supply

  function Digit(n: int): char
    requires 0 <= n < 10
  {
    '0' + n as char
  }

  /** Decimal text of a number. */
  function Decimal(n: nat): (s: string)
    ensures s != []
  {
    if n < 10 then [Digit(n)] else Decimal(n / 10) + [Digit(n % 10)]
  }

  /** `parse` on decimal text. */
  function Parse(s: string): nat {
    if s == [] then 0
    else 10 * Parse(s[..|s| - 1]) + (if '0' <= s[|s| - 1] <= '9' then (s[|s| - 1] - '0') as nat else 0)
  }

  lemma {:induction false} ParseDecimal(n: nat)
    ensures Parse(Decimal(n)) == n && ':' !in Decimal(n)
  {
    if n < 10 {
      assert Decimal(n)[..0] == [];
    } else {
      ParseDecimal(n / 10);
      assert Decimal(n)[..|Decimal(n)| - 1] == Decimal(n / 10);
    }
  }

  /** `key`. */
  function Key(o: Outpoint): string { o.txid + [':'] + Decimal(o.index) }

  /** The text before the first colon, and the text after it (`splitn(2, ':')`). */
  function Before(s: string): string {
    if s == [] || s[0] == ':' then [] else [s[0]] + Before(s[1..])
  }

  function After(s: string): string {
    if s == [] then [] else if s[0] == ':' then s[1..] else After(s[1..])
  }

  /** `parse` into u32, falling back to zero. */
  function ParseIndex(s: string): U32 { if Parse(s) <= MAX_U32 then Parse(s) else 0 }

  /** Reading a key back, as `utxos_for` does. */
  function ReadKey(s: string): Outpoint { Outpoint(Before(s), ParseIndex(After(s))) }

  lemma {:induction false} SplitAtColon(t: string, rest: string)
    requires ':' !in t
    ensures Before(t + [':'] + rest) == t && After(t + [':'] + rest) == rest
  {
    var s := t + [':'] + rest;
    if t == [] {
      assert s[1..] == rest;
    } else {
      assert s[1..] == t[1..] + [':'] + rest;
      SplitAtColon(t[1..], rest);
    }
  }

  /** Reading the key of an outpoint with a colon-free txid and a u32 index gives the outpoint back. */
  lemma KeyRoundTrip(o: Outpoint)
    requires ':' !in o.txid
    ensures Before(Key(o)) == o.txid && Parse(After(Key(o))) == o.index
    ensures o.index <= MAX_U32 ==> ReadKey(Key(o)) == o
  {
    SplitAtColon(o.txid, Decimal(o.index));
    ParseDecimal(o.index);
  }

  /** Whatever text a peer puts into an input, its key meets the key of a stored outpoint only if it is that
      outpoint; so filing outputs by key is filing them by outpoint. */
  lemma KeysIdentify(o: Outpoint, stored: Outpoint)
    requires ':' !in stored.txid
    ensures Key(o) == Key(stored) <==> o == stored
  {
    if Key(o) == Key(stored) {
      OneColon(o, stored);
      KeyRoundTrip(o);
      KeyRoundTrip(stored);
    }
  }

  function Colons(s: string): nat {
    if s == [] then 0 else Colons(s[..|s| - 1]) + if s[|s| - 1] == ':' then 1 else 0
  }

  lemma {:induction false} ColonsAppend(a: string, b: string)
    ensures Colons(a + b) == Colons(a) + Colons(b)
    decreases |b|
  {
    if b == [] {
      assert a + b == a;
    } else {
      assert (a + b)[..|a + b| - 1] == a + b[..|b| - 1];
      ColonsAppend(a, b[..|b| - 1]);
    }
  }

  lemma {:induction false} NoColons(s: string)
    ensures Colons(s) == 0 <==> ':' !in s
  {
    if s != [] {
      NoColons(s[..|s| - 1]);
      assert s == s[..|s| - 1] + [s[|s| - 1]];
    }
  }

  lemma KeyColons(o: Outpoint)
    ensures Colons(Key(o)) == Colons(o.txid) + 1
  {
    ColonsAppend(o.txid + [':'], Decimal(o.index));
    ColonsAppend(o.txid, [':']);
    assert [':'][..0] == [];
    ParseDecimal(o.index);
    NoColons(Decimal(o.index));
  }

  lemma OneColon(o: Outpoint, stored: Outpoint)
    requires ':' !in stored.txid && Key(o) == Key(stored)
    ensures ':' !in o.txid
  {
    KeyColons(o);
    KeyColons(stored);
    NoColons(o.txid);
    NoColons(stored.txid);
  }

  /** A txid is hexadecimal text. */
  lemma TxidHasNoColon(c: Crypto, tx: Transaction)
    ensures ':' !in Txid(c, tx)
  {
    HexHasNoColon(TxDigest(c, tx));
  }

  // ---------- the set filed under keys ----------

  /** An outpoint whose key can be read back: a colon-free txid and a u32 index. */
  predicate Readable(o: Outpoint) { ':' !in o.txid && o.index <= MAX_U32 }

  ghost predicate AllReadable(outs: map<Outpoint, TxOutput>) { forall o | o in outs :: Readable(o) }

  /** Outputs that come from transactions, none with more outputs than u32 counts, are readable. */
  lemma StoredAreReadable(c: Crypto, outs: map<Outpoint, TxOutput>, txs: set<Transaction>)
    requires From(c, outs, txs) && FewOutputs(txs)
    ensures AllReadable(outs)
  {
    forall o | o in outs ensures Readable(o) {
      var tx :| tx in txs && Makes(c, tx, o, outs[o]);
      TxidHasNoColon(c, tx);
    }
  }

  lemma KeysDiffer(outs: map<Outpoint, TxOutput>)
    requires AllReadable(outs)
    ensures Separates(Key, outs.Keys)
  {
    forall o, p | o in outs && p in outs && Key(o) == Key(p) ensures o == p { KeysIdentify(o, p); }
  }

  /** A map filed under other keys, no two of which coincide. */
  ghost predicate Separates<K(!new), L>(key: K -> L, keys: set<K>) {
    forall o, p | o in keys && p in keys && key(o) == key(p) :: o == p
  }

  function Rekey<K(!new), L, V>(key: K -> L, m: map<K, V>): (r: map<L, V>)
    requires Separates(key, m.Keys)
    ensures forall o | o in m :: key(o) in r && r[key(o)] == m[o]
    ensures forall k | k in r :: exists o :: o in m && key(o) == k
  {
    map o | o in m :: key(o) := m[o]
  }

  lemma RekeyRemove<K(!new), L, V>(key: K -> L, m: map<K, V>, o: K)
    requires Separates(key, m.Keys + {o})
    ensures Rekey(key, m - {o}) == Rekey(key, m) - {key(o)}
  {
    var a, b := Rekey(key, m - {o}), Rekey(key, m) - {key(o)};
    forall k | k in b ensures k in a {
      var p :| p in m && key(p) == k;
    }
  }

  lemma RekeyInsert<K(!new), L, V>(key: K -> L, m: map<K, V>, o: K, v: V)
    requires Separates(key, m.Keys + {o})
    ensures Separates(key, m[o := v].Keys) && Rekey(key, m[o := v]) == Rekey(key, m)[key(o) := v]
  {
    var a, b := Rekey(key, m[o := v]), Rekey(key, m)[key(o) := v];
    assert forall k | k in a :: k in b && a[k] == b[k];
    forall k | k in b ensures k in a {
      if k != key(o) { var p :| p in m && key(p) == k; }
    }
  }

  /** The `utxos` field as the program holds it: outputs under the text of their outpoints. */
  function Keyed(outs: map<Outpoint, TxOutput>): map<string, TxOutput>
    requires AllReadable(outs)
  {
    KeysDiffer(outs);
    Rekey(Key, outs)
  }

  /** Keys still differ when any outpoint a peer's text makes up is added. */
  lemma KeysDifferWith(outs: map<Outpoint, TxOutput>, o: Outpoint)
    requires AllReadable(outs)
    ensures Separates(Key, outs.Keys + {o})
  {
    forall p, q | p in outs.Keys + {o} && q in outs.Keys + {o} && Key(p) == Key(q) ensures p == q {
      if q in outs { KeysIdentify(p, q); } else if p in outs { KeysIdentify(q, p); }
    }
  }

  /** Looking up any text a peer sends finds what its outpoint names. */
  lemma KeyedGet(outs: map<Outpoint, TxOutput>, o: Outpoint)
    requires AllReadable(outs)
    ensures Lookup(Keyed(outs), Key(o)) == Lookup(outs, o)
  {
    KeysDifferWith(outs, o);
  }

  /** Removing by key removes the outpoint, whatever text the key was made from. */
  lemma KeyedRemove(outs: map<Outpoint, TxOutput>, o: Outpoint)
    requires AllReadable(outs)
    ensures Keyed(outs - {o}) == Keyed(outs) - {Key(o)}
  {
    KeysDifferWith(outs, o);
    RekeyRemove(Key, outs, o);
  }

  /** Inserting under a key inserts under the outpoint. */
  lemma KeyedInsert(outs: map<Outpoint, TxOutput>, o: Outpoint, v: TxOutput)
    requires AllReadable(outs) && Readable(o)
    ensures Keyed(outs[o := v]) == Keyed(outs)[Key(o) := v]
  {
    KeysDifferWith(outs, o);
    RekeyInsert(Key, outs, o, v);
  }
}

/** `Wallet::send`: coin selection, change and signing (src/wallet/wallet.rs). */
module Wallets {
  import opened Basics
  import opened Transactions
  import opened Ledger
  import opened Blocks
  import opened Supply
  import opened DoubleSpend
  import opened Nodes
  import opened Invariant
  import opened Runs
  import opened Guarantees
  import opened OutpointKeys

  /** A key pair: its public half, its address and its signing function. */
  datatype Wallet = Wallet(pubkey: PublicKey, address: string, sign: Bytes -> Signature)

  /** A spendable output with the outpoint that names it. */
  datatype Coin = Coin(txHash: Hash, index: U32, output: TxOutput)
  {
    function Point(): Outpoint { Outpoint(txHash, index) }
  }

  // ---------- the coins of an address ----------

  function CoinAt(key: string, output: TxOutput): Coin {
    var o := ReadKey(key);
    Coin(o.txid, o.index, output)
  }

  /** `utxos_for`: the entries of the keyed set that pay to `address`, in the order `keys` in which the map delivers them. */
  function UtxosFor(keyed: map<string, TxOutput>, keys: seq<string>, address: string): seq<Coin>
    requires forall i | 0 <= i < |keys| :: keys[i] in keyed
  {
    if keys == [] then []
    else
      var key := keys[|keys| - 1];
      UtxosFor(keyed, keys[..|keys| - 1], address) + if keyed[key].address == address then [CoinAt(key, keyed[key])] else []
  }

  /** An order in which the map delivers its keys. */
  ghost predicate Delivers(keyed: map<string, TxOutput>, keys: seq<string>) {
    && (forall i | 0 <= i < |keys| :: keys[i] in keyed)
    && (forall i, j | 0 <= i < j < |keys| :: keys[i] != keys[j])
    && (forall k | k in keyed :: k in keys)
  }

  /** The coin is an unspent output of the set, with its own outpoint, that pays to `address`. */
  predicate Owned(outs: map<Outpoint, TxOutput>, coin: Coin, address: string) {
    coin.Point() in outs && outs[coin.Point()] == coin.output && coin.output.address == address
  }

  ghost predicate AllOwned(outs: map<Outpoint, TxOutput>, coins: seq<Coin>, address: string) {
    forall i | 0 <= i < |coins| :: Owned(outs, coins[i], address)
  }

  lemma CoinIsOwned(outs: map<Outpoint, TxOutput>, key: string)
    requires AllReadable(outs) && key in Keyed(outs)
    ensures var coin := CoinAt(key, Keyed(outs)[key]); Owned(outs, coin, coin.output.address) && Key(coin.Point()) == key
  {
    var o :| o in outs && Key(o) == key;
    KeyRoundTrip(o);
  }

  ghost predicate Found(coins: seq<Coin>, o: Outpoint) { exists i :: 0 <= i < |coins| && coins[i].Point() == o }

  /** The keys of the coins, in order, are among `keys`. */
  ghost predicate FromKeys(coins: seq<Coin>, keys: seq<string>) {
    forall i | 0 <= i < |coins| :: Key(coins[i].Point()) in keys
  }

  ghost predicate DistinctPoints(coins: seq<Coin>) {
    forall i, j | 0 <= i < j < |coins| :: coins[i].Point() != coins[j].Point()
  }

  /** All coins are owned, come from `keys` and differ. */
  ghost predicate Listed(outs: map<Outpoint, TxOutput>, coins: seq<Coin>, keys: seq<string>, address: string) {
    AllOwned(outs, coins, address) && FromKeys(coins, keys) && DistinctPoints(coins)
  }

  lemma ListMore(outs: map<Outpoint, TxOutput>, coins: seq<Coin>, keys: seq<string>, address: string, key: string)
    requires Listed(outs, coins, keys, address) && key !in keys
    ensures Listed(outs, coins, keys + [key], address)
    ensures forall coin | Owned(outs, coin, address) && Key(coin.Point()) == key :: Listed(outs, coins + [coin], keys + [key], address)
  {
  }

  lemma {:induction false} ListedAreOwned(outs: map<Outpoint, TxOutput>, keys: seq<string>, address: string)
    requires AllReadable(outs) && (forall i | 0 <= i < |keys| :: keys[i] in Keyed(outs))
    requires forall i, j | 0 <= i < j < |keys| :: keys[i] != keys[j]
    ensures Listed(outs, UtxosFor(Keyed(outs), keys, address), keys, address)
  {
    if keys != [] {
      var front, key := keys[..|keys| - 1], keys[|keys| - 1];
      ListedAreOwned(outs, front, address);
      CoinIsOwned(outs, key);
      assert key !in front;
      ListMore(outs, UtxosFor(Keyed(outs), front, address), front, address, key);
      assert front + [key] == keys;
    }
  }

  /** What `utxos_for` may list for this address: the keyed set, in some iteration order. */
  ghost predicate ListedBy(outs: map<Outpoint, TxOutput>, address: string, coins: seq<Coin>) {
    AllReadable(outs) && exists keys :: Delivers(Keyed(outs), keys) && coins == UtxosFor(Keyed(outs), keys, address)
  }

  lemma CoinsAreOwned(outs: map<Outpoint, TxOutput>, address: string, coins: seq<Coin>)
    requires ListedBy(outs, address, coins)
    ensures AllOwned(outs, coins, address) && DistinctPoints(coins)
  {
    var keys :| Delivers(Keyed(outs), keys) && coins == UtxosFor(Keyed(outs), keys, address);
    ListedAreOwned(outs, keys, address);
  }

  lemma {:induction false} AllAreListed(outs: map<Outpoint, TxOutput>, keys: seq<string>, address: string, o: Outpoint)
    requires AllReadable(outs) && (forall i | 0 <= i < |keys| :: keys[i] in Keyed(outs))
    requires o in outs && outs[o].address == address && Key(o) in keys
    ensures Found(UtxosFor(Keyed(outs), keys, address), o)
  {
    var front, key := keys[..|keys| - 1], keys[|keys| - 1];
    var coins := UtxosFor(Keyed(outs), front, address);
    if key == Key(o) {
      KeyRoundTrip(o);
      assert (coins + [CoinAt(key, Keyed(outs)[key])])[|coins|].Point() == o;
    } else {
      assert Key(o) in front;
      AllAreListed(outs, front, address, o);
      var i :| 0 <= i < |coins| && coins[i].Point() == o;
      assert UtxosFor(Keyed(outs), keys, address)[i].Point() == o;
    }
  }

  /** What `utxos_for` lists, in any iteration order: exactly the unspent outputs that pay to the address, each once, under
      its own outpoint. */
  lemma UtxosForIsExact(outs: map<Outpoint, TxOutput>, address: string, coins: seq<Coin>)
    requires ListedBy(outs, address, coins)
    ensures AllOwned(outs, coins, address) && DistinctPoints(coins)
    ensures forall o | o in outs && outs[o].address == address :: Found(coins, o)
  {
    CoinsAreOwned(outs, address, coins);
    forall o | o in outs && outs[o].address == address ensures Found(coins, o) {
      var keys :| Delivers(Keyed(outs), keys) && coins == UtxosFor(Keyed(outs), keys, address);
      AllAreListed(outs, keys, address, o);
    }
  }

  lemma NodeIsReadable(c: Crypto, g: Block, n: Node, hist: map<Hash, Block>)
    requires Inv(c, g, n, hist)
    ensures AllReadable(n.utxo.outs) && SmallIndices(n.utxo.outs)
  {
    ActiveIsLawful(c, g, n, hist);
    ChainIsReadable(c, n.magic, n.blocks);
  }

  /** After every run the unspent outputs have readable keys, and indices below u32::MAX. */
  lemma ReadableInEveryRun(c: Crypto, magic: U32, g: Block, events: seq<Event>)
    requires IsGenesis(c, g) && NoCollisions(c, Seen(g, events))
    ensures AllReadable(Run(c, magic, g, events).utxo.outs) && SmallIndices(Run(c, magic, g, events).utxo.outs)
  {
    Reachable(c, magic, g, events);
    NodeIsReadable(c, g, Run(c, magic, g, events), Hist(c, magic, g, events));
  }

  lemma ChainIsReadable(c: Crypto, magic: U32, chain: seq<Block>)
    requires LawfulChain(c, magic, chain) && Replay(c, chain).Some?
    ensures AllReadable(Replay(c, chain).value.utxo.outs) && SmallIndices(Replay(c, chain).value.utxo.outs)
  {
    ReplayIsFlat(c, chain);
    FlattenWithin(chain);
    FromApplyAll(c, EMPTY_UTXOS, Flatten(chain), TxsOf(chain));
    ChainOutputsAreFew(c, magic, chain);
    StoredAreReadable(c, Replay(c, chain).value.utxo.outs, TxsOf(chain));
    FromSmallIndices(c, Replay(c, chain).value.utxo.outs, TxsOf(chain));
  }

  // ---------- coin selection ----------

  function Collected(coins: seq<Coin>): nat {
    if coins == [] then 0 else Collected(coins[..|coins| - 1]) + coins[|coins| - 1].output.value
  }

  /** How many coins the selection loop takes: it stops as soon as enough is collected, but not before the first. */
  function Needed(coins: seq<Coin>, needed: nat): (k: nat)
    ensures k <= |coins|
    ensures Collected(coins[..k]) < needed ==> k == |coins|
    ensures forall j | 1 <= j < k :: Collected(coins[..j]) < needed
  {
    NeededFrom(coins, needed, 0)
  }

  function NeededFrom(coins: seq<Coin>, needed: nat, i: nat): (k: nat)
    requires i <= |coins|
    ensures i <= k <= |coins| && (i < |coins| ==> i < k)
    ensures Collected(coins[..k]) < needed ==> k == |coins|
    ensures forall j | i < j < k :: Collected(coins[..j]) < needed
    decreases |coins| - i
  {
    if i == |coins| then i
    else if Collected(coins[..i + 1]) >= needed then i + 1
    else NeededFrom(coins, needed, i + 1)
  }

  /** The selection loop, which takes coins in the order the map delivers them. */
  method SelectCoins(coins: seq<Coin>, needed: nat) returns (selected: seq<Coin>, collected: nat)
    ensures selected == Chosen(coins, needed) && collected == Collected(selected)
  {
    selected, collected := [], 0;
    var i := 0;
    while i < |coins|
      invariant i <= |coins| && selected == coins[..i] && collected == Collected(selected)
      invariant Needed(coins, needed) == NeededFrom(coins, needed, i)
    {
      assert coins[..i + 1][..i] == coins[..i];
      collected := collected + coins[i].output.value;
      selected := selected + [coins[i]];
      i := i + 1;
      if collected >= needed { return; }
    }
  }

  function Outputs(w: Wallet, recipient: string, amount: U64, change: nat): seq<TxOutput>
    requires change <= MAX_U64
  {
    [TxOutput(amount, None, recipient)] + if change > 0 then [TxOutput(change, None, w.address)] else []
  }

  function Inputs(w: Wallet, selected: seq<Coin>, signature: Signature): (r: seq<TxInput>)
    ensures |r| == |selected|
  {
    seq(|selected|, i requires 0 <= i < |selected| =>
      TxInput(selected[i].txHash, selected[i].index, signature, w.pubkey, [], []))
  }

  /** The transaction over `selected`, with its outputs, under one signature of the unsigned transaction. */
  function Signed(c: Crypto, w: Wallet, selected: seq<Coin>, outputs: seq<TxOutput>, magic: U32): Transaction {
    var unsigned := Transaction(Inputs(w, selected, NO_SIGNATURE), outputs, 1, 0);
    Transaction(Inputs(w, selected, w.sign(SigHash(c, unsigned, magic))), outputs, 1, 0)
  }

  /** Paying with these coins, worth `collected`. The caller keeps `amount + fee` and `collected` within u64. */
  function Pay(c: Crypto, w: Wallet, recipient: string, amount: U64, fee: U64, selected: seq<Coin>, collected: nat,
          magic: U32): Result<Transaction>
    requires collected <= MAX_U64
  {
    if collected < amount + fee then Err(InsufficientFunds)
    else Ok(Signed(c, w, selected, Outputs(w, recipient, amount, collected - (amount + fee)), magic))
  }

  function Chosen(coins: seq<Coin>, needed: nat): seq<Coin> { coins[..Needed(coins, needed)] }

  /** `send`. */
  function Send(c: Crypto, w: Wallet, recipient: string, amount: U64, fee: U64, coins: seq<Coin>,
          magic: U32): Result<Transaction>
    requires Collected(Chosen(coins, amount + fee)) <= MAX_U64
  {
    var selected := Chosen(coins, amount + fee);
    Pay(c, w, recipient, amount, fee, selected, Collected(selected), magic)
  }

  // ---------- the validator agrees ----------

  /** Verification accepts what this wallet signs, and its key hashes to its address. */
  ghost predicate KeysMatch(c: Crypto, w: Wallet) {
    c.hybridAddress(w.pubkey) == Some(w.address) && forall m :: c.verify(w.sign(m), m, w.pubkey)
  }

  /** A mature output under this wallet's plain script. */
  ghost predicate Plain(u: Utxos, w: Wallet, coin: Coin, height: nat) {
    coin.output.EffectiveScript() == P2PKH(w.address) && !Immature(u, coin.txHash, height)
  }

  ghost predicate AllPlain(u: Utxos, w: Wallet, coins: seq<Coin>, height: nat) {
    forall i | 0 <= i < |coins| :: Plain(u, w, coins[i], height)
  }

  /** Such a coin that the set holds. */
  ghost predicate Ripe(u: Utxos, w: Wallet, coin: Coin, height: nat) {
    coin.Point() in u.outs && u.outs[coin.Point()] == coin.output && Plain(u, w, coin, height)
  }

  ghost predicate AllRipe(u: Utxos, w: Wallet, coins: seq<Coin>, height: nat) {
    forall i | 0 <= i < |coins| :: Ripe(u, w, coins[i], height)
  }

  lemma {:induction false} InputsSum(u: Utxos, w: Wallet, selected: seq<Coin>, signature: Signature, height: nat)
    requires AllRipe(u, w, selected, height)
    ensures SumInputs(u.outs, Inputs(w, selected, signature)) == Collected(selected)
  {
    if selected != [] {
      var front := selected[..|selected| - 1];
      forall i | 0 <= i < |front| ensures Ripe(u, w, front[i], height) { assert front[i] == selected[i]; }
      InputsSum(u, w, front, signature, height);
      assert Inputs(w, selected, signature)[..|front|] == Inputs(w, front, signature);
      assert Ripe(u, w, selected[|front|], height);
    }
  }

  lemma OneOutput(o: TxOutput)
    ensures SumOutputs([o]) == o.value && (NoDust([o]) <==> o.value >= DUST_LIMIT)
  {
    assert [o][..0] == [];
    assert [o][0] == o;
  }

  lemma TwoOutputs(a: TxOutput, b: TxOutput)
    ensures SumOutputs([a, b]) == a.value + b.value && (NoDust([a, b]) <==> a.value >= DUST_LIMIT && b.value >= DUST_LIMIT)
  {
    OneOutput(a);
    assert [a, b][..1] == [a];
    assert [a, b][0] == a && [a, b][1] == b;
  }

  lemma OutputsSum(w: Wallet, recipient: string, amount: U64, change: nat)
    requires change <= MAX_U64
    ensures SumOutputs(Outputs(w, recipient, amount, change)) == amount + change
    ensures NoDust(Outputs(w, recipient, amount, change)) <==> amount >= DUST_LIMIT && (change == 0 || change >= DUST_LIMIT)
  {
    var first := TxOutput(amount, None, recipient);
    if change > 0 {
      TwoOutputs(first, TxOutput(change, None, w.address));
      assert Outputs(w, recipient, amount, change) == [first, TxOutput(change, None, w.address)];
    } else {
      OneOutput(first);
      assert Outputs(w, recipient, amount, change) == [first];
    }
  }

  /** One signature over the unsigned transaction satisfies every input of the signed one. */
  lemma SignedSpends(c: Crypto, u: Utxos, w: Wallet, selected: seq<Coin>, outputs: seq<TxOutput>, magic: U32, height: nat)
    requires KeysMatch(c, w) && AllRipe(u, w, selected, height)
    ensures var tx := Signed(c, w, selected, outputs, magic); AllSpendable(c, u, tx.inputs, SigHash(c, tx, magic), height)
  {
    var unsigned := Transaction(Inputs(w, selected, NO_SIGNATURE), outputs, 1, 0);
    var tx := Signed(c, w, selected, outputs, magic);
    SigHashIgnoresSignatures(c, tx, unsigned, magic);
    forall i | 0 <= i < |tx.inputs| ensures Spendable(c, u, tx.inputs[i], SigHash(c, tx, magic), height) {
      assert Ripe(u, w, selected[i], height);
      assert Spent(tx.inputs[i]) == selected[i].Point();
    }
  }

  /** The validator's answer to a payment: the fee, unless an output is dust. */
  function Answer(amount: nat, change: nat, fee: nat): Result<nat> {
    if amount >= DUST_LIMIT && (change == 0 || change >= DUST_LIMIT) then Ok(fee) else Err(Dust)
  }

  lemma ValidByParts(c: Crypto, u: Utxos, tx: Transaction, magic: U32, height: nat, collected: nat, total: nat)
    requires AllSpendable(c, u, tx.inputs, SigHash(c, tx, magic), height)
    requires SumInputs(u.outs, tx.inputs) == collected <= MAX_U64 && SumOutputs(tx.outputs) == total <= collected
    ensures ValidateTx(c, u, tx, magic, height) == if NoDust(tx.outputs) then Ok(collected - total) else Err(Dust)
  {
    CheckInputsMeaning(c, u, tx.inputs, SigHash(c, tx, magic), height);
  }

  lemma SignedTotal(c: Crypto, u: Utxos, w: Wallet, selected: seq<Coin>, outputs: seq<TxOutput>, magic: U32, height: nat)
    requires AllRipe(u, w, selected, height)
    ensures SumInputs(u.outs, Signed(c, w, selected, outputs, magic).inputs) == Collected(selected)
    ensures Signed(c, w, selected, outputs, magic).outputs == outputs
  {
    InputsSum(u, w, selected, w.sign(SigHash(c, Transaction(Inputs(w, selected, NO_SIGNATURE), outputs, 1, 0), magic)), height);
  }

  lemma SignedIsValid(c: Crypto, u: Utxos, w: Wallet, selected: seq<Coin>, outputs: seq<TxOutput>, magic: U32,
          height: nat)
    requires KeysMatch(c, w) && AllRipe(u, w, selected, height) && SumOutputs(outputs) <= Collected(selected) <= MAX_U64
    ensures ValidateTx(c, u, Signed(c, w, selected, outputs, magic), magic, height)
            == if NoDust(outputs) then Ok(Collected(selected) - SumOutputs(outputs)) else Err(Dust)
  {
    SignedSpends(c, u, w, selected, outputs, magic, height);
    SignedTotal(c, u, w, selected, outputs, magic, height);
    ValidByParts(c, u, Signed(c, w, selected, outputs, magic), magic, height, Collected(selected), SumOutputs(outputs));
  }

  lemma PaidIsSigned(c: Crypto, w: Wallet, recipient: string, amount: U64, fee: U64, selected: seq<Coin>, collected: nat,
          magic: U32, tx: Transaction) returns (outputs: seq<TxOutput>)
    requires collected <= MAX_U64 && Pay(c, w, recipient, amount, fee, selected, collected, magic) == Ok(tx)
    ensures amount + fee <= collected && tx == Signed(c, w, selected, outputs, magic)
    ensures SumOutputs(outputs) == collected - fee
    ensures Answer(amount, collected - (amount + fee), fee) == if NoDust(outputs) then Ok(fee) else Err(Dust)
  {
    outputs := Outputs(w, recipient, amount, collected - (amount + fee));
    OutputsSum(w, recipient, amount, collected - (amount + fee));
  }

  lemma PaidIsValid(c: Crypto, u: Utxos, w: Wallet, recipient: string, amount: U64, fee: U64, selected: seq<Coin>,
          collected: nat, magic: U32, height: nat, tx: Transaction)
    requires KeysMatch(c, w) && AllRipe(u, w, selected, height) && Collected(selected) == collected <= MAX_U64
    requires Pay(c, w, recipient, amount, fee, selected, collected, magic) == Ok(tx)
    ensures amount + fee <= collected
    ensures ValidateTx(c, u, tx, magic, height) == Answer(amount, collected - (amount + fee), fee)
  {
    var outputs := PaidIsSigned(c, w, recipient, amount, fee, selected, collected, magic, tx);
    SignedIsValid(c, u, w, selected, outputs, magic, height);
  }

  lemma InputsAreDistinct(w: Wallet, selected: seq<Coin>, signature: Signature)
    requires DistinctPoints(selected)
    ensures DistinctSpends(Inputs(w, selected, signature))
  {
    var inputs := Inputs(w, selected, signature);
    forall i, j | 0 <= i < j < |inputs| ensures Spent(inputs[i]) != Spent(inputs[j]) {
      assert Spent(inputs[i]) == selected[i].Point() && Spent(inputs[j]) == selected[j].Point();
    }
  }

  lemma PaidIsDistinct(c: Crypto, w: Wallet, selected: seq<Coin>, outputs: seq<TxOutput>, magic: U32)
    requires DistinctPoints(selected)
    ensures DistinctSpends(Signed(c, w, selected, outputs, magic).inputs)
  {
    InputsAreDistinct(w, selected, w.sign(SigHash(c, Transaction(Inputs(w, selected, NO_SIGNATURE), outputs, 1, 0), magic)));
  }

  lemma ChosenAreRipe(u: Utxos, w: Wallet, coins: seq<Coin>, chosen: seq<Coin>, needed: nat, height: nat)
    requires AllOwned(u.outs, coins, w.address) && chosen == Chosen(coins, needed) && AllPlain(u, w, chosen, height)
    ensures AllRipe(u, w, chosen, height)
  {
    forall i | 0 <= i < |chosen| ensures Ripe(u, w, chosen[i], height) {
      assert Owned(u.outs, coins[i], w.address);
    }
  }

  lemma ListedIsValid(c: Crypto, u: Utxos, w: Wallet, coins: seq<Coin>, recipient: string, amount: U64, fee: U64, magic: U32,
          height: nat, tx: Transaction, collected: nat)
    requires KeysMatch(c, w) && AllOwned(u.outs, coins, w.address) && AllPlain(u, w, Chosen(coins, amount + fee), height)
    requires collected == Collected(Chosen(coins, amount + fee)) <= MAX_U64
    requires Send(c, w, recipient, amount, fee, coins, magic) == Ok(tx)
    ensures amount + fee <= collected
    ensures ValidateTx(c, u, tx, magic, height) == Answer(amount, collected - (amount + fee), fee)
  {
    var chosen := Chosen(coins, amount + fee);
    ChosenAreRipe(u, w, coins, chosen, amount + fee, height);
    PaidIsValid(c, u, w, recipient, amount, fee, chosen, collected, magic, height, tx);
  }

  lemma SentIsDistinct(c: Crypto, w: Wallet, coins: seq<Coin>, recipient: string, amount: U64, fee: U64, magic: U32,
          tx: Transaction)
    requires DistinctPoints(coins) && Collected(Chosen(coins, amount + fee)) <= MAX_U64
    requires Send(c, w, recipient, amount, fee, coins, magic) == Ok(tx)
    ensures DistinctSpends(tx.inputs)
  {
    var chosen := Chosen(coins, amount + fee);
    var outputs := PaidIsSigned(c, w, recipient, amount, fee, chosen, Collected(chosen), magic, tx);
    PaidIsDistinct(c, w, chosen, outputs, magic);
  }

  /** Wallet to validator. The wallet lists its coins with `utxos_for` from the keyed set, in any iteration order; if the
      coins it selects are mature and under its plain script, what `send` returns validates with exactly the
      requested fee if and only if the amount, and the change when there is any, reach the dust limit, and is
      refused as dust otherwise. Its inputs name different outpoints, as the supply cap asks. */
  lemma SendIsValid(c: Crypto, u: Utxos, w: Wallet, coins: seq<Coin>, recipient: string, amount: U64, fee: U64, magic: U32,
          height: nat, tx: Transaction, collected: nat)
    requires KeysMatch(c, w) && ListedBy(u.outs, w.address, coins) && AllPlain(u, w, Chosen(coins, amount + fee), height)
    requires collected == Collected(Chosen(coins, amount + fee)) <= MAX_U64
    requires Send(c, w, recipient, amount, fee, coins, magic) == Ok(tx)
    ensures amount + fee <= collected && DistinctSpends(tx.inputs)
    ensures ValidateTx(c, u, tx, magic, height) == Answer(amount, collected - (amount + fee), fee)
  {
    CoinsAreOwned(u.outs, w.address, coins);
    SentIsDistinct(c, w, coins, recipient, amount, fee, magic, tx);
    ListedIsValid(c, u, w, coins, recipient, amount, fee, magic, height, tx, collected);
  }

  /** `send` fails exactly when the wallet's coins together do not reach amount plus fee. */
  lemma SendFails(c: Crypto, w: Wallet, recipient: string, amount: U64, fee: U64, coins: seq<Coin>, magic: U32)
    requires Collected(coins) <= MAX_U64
    ensures Collected(Chosen(coins, amount + fee)) <= MAX_U64
    ensures Send(c, w, recipient, amount, fee, coins, magic).Err? <==> Collected(coins) < amount + fee
  {
    CollectedPrefix(coins, Needed(coins, amount + fee));
    assert coins[..|coins|] == coins;
  }

  lemma {:induction false} CollectedPrefix(coins: seq<Coin>, k: nat)
    requires k <= |coins|
    ensures Collected(coins[..k]) <= Collected(coins)
    decreases |coins|
  {
    if k < |coins| {
      CollectedPrefix(coins[..|coins| - 1], k);
      assert coins[..|coins| - 1][..k] == coins[..k];
    } else {
      assert coins[..k] == coins;
    }
  }

  method SignAll(c: Crypto, w: Wallet, selected: seq<Coin>, outputs: seq<TxOutput>, magic: U32) returns (tx: Transaction)
    ensures tx == Signed(c, w, selected, outputs, magic)
  {
    var digest := ComputeSigHash(c, Transaction(Inputs(w, selected, NO_SIGNATURE), outputs, 1, 0), magic);
    tx := Transaction(Inputs(w, selected, w.sign(digest)), outputs, 1, 0);
  }

  /** The rest of `send` once coins are selected: split off the change, sign once, attach the signature everywhere. */
  method PayWith(c: Crypto, w: Wallet, recipient: string, amount: U64, fee: U64, selected: seq<Coin>, collected: nat,
          magic: U32)
    returns (r: Result<Transaction>)
    requires collected <= MAX_U64
    ensures r == Pay(c, w, recipient, amount, fee, selected, collected, magic)
  {
    if collected < amount + fee { return Err(InsufficientFunds); }
    var outputs := [TxOutput(amount, None, recipient)];
    var change := collected - (amount + fee);
    if change > 0 {
      outputs := outputs + [TxOutput(change, None, w.address)];
    }
    assert outputs == Outputs(w, recipient, amount, change);
    var tx := SignAll(c, w, selected, outputs, magic);
    r := Ok(tx);
  }

  /** `send` as it runs. */
  method BuildTransaction(c: Crypto, w: Wallet, recipient: string, amount: U64, fee: U64, coins: seq<Coin>, magic: U32)
    returns (r: Result<Transaction>)
    requires Collected(Chosen(coins, amount + fee)) <= MAX_U64
    ensures r == Send(c, w, recipient, amount, fee, coins, magic)
  {
    var selected, collected := SelectCoins(coins, amount + fee);
    r := PayWith(c, w, recipient, amount, fee, selected, collected, magic);
  }

  // ---------- who is paid ----------

  /** The outputs pay `amount` to the recipient's plain script and then `change`, if any, to the sender's. */
  predicate Pays(outputs: seq<TxOutput>, w: Wallet, recipient: string, amount: nat, change: nat) {
    && |outputs| == (if change > 0 then 2 else 1)
    && outputs[0].value == amount && outputs[0].EffectiveScript() == P2PKH(recipient)
    && (change > 0 ==> outputs[1].value == change && outputs[1].EffectiveScript() == P2PKH(w.address))
  }

  /** The inputs name these coins, in order, under the sender's key. */
  predicate Spends(inputs: seq<TxInput>, w: Wallet, coins: seq<Coin>) {
    && |inputs| == |coins|
    && forall i | 0 <= i < |coins| :: Spent(inputs[i]) == coins[i].Point() && inputs[i].pubkey == w.pubkey
  }

  /** What `send` returns spends exactly the chosen coins, pays the amount to the recipient, and returns to the sender what
      is left of the coins after amount and fee. */
  lemma SendPays(c: Crypto, w: Wallet, recipient: string, amount: U64, fee: U64, coins: seq<Coin>, magic: U32, tx: Transaction)
    requires Collected(Chosen(coins, amount + fee)) <= MAX_U64 && Send(c, w, recipient, amount, fee, coins, magic) == Ok(tx)
    ensures var chosen := Chosen(coins, amount + fee);
            && amount + fee <= Collected(chosen) && Spends(tx.inputs, w, chosen)
            && Pays(tx.outputs, w, recipient, amount, Collected(chosen) - amount - fee)
  {
  }

  /** The value of an output to whoever holds the key of an address. */
  function WorthTo(address: string): TxOutput -> nat {
    (o: TxOutput) => if o.EffectiveScript() == P2PKH(address) then o.value else 0
  }

  /** Everything under the plain script of an address. */
  ghost function Holding(outs: map<Outpoint, TxOutput>, address: string): nat { SumOver(WorthTo(address), outs) }

  function Weigh(weight: TxOutput -> nat, outputs: seq<TxOutput>): nat {
    if outputs == [] then 0 else Weigh(weight, outputs[..|outputs| - 1]) + weight(outputs[|outputs| - 1])
  }

  lemma {:induction false} WeighCreated(weight: TxOutput -> nat, m: map<Outpoint, TxOutput>, txid: Hash, outputs: seq<TxOutput>)
    requires forall o | o in m :: o.txid != txid
    ensures SumOver(weight, m + Created(txid, outputs)) == SumOver(weight, m) + Weigh(weight, outputs)
    decreases |outputs|
  {
    if outputs == [] {
      assert m + Created(txid, outputs) == m;
    } else {
      var n := |outputs| - 1;
      WeighCreated(weight, m, txid, outputs[..n]);
      CreateLast(m, txid, outputs, n);
      SumInsert(weight, m + Created(txid, outputs[..n]), Outpoint(txid, n), outputs[n]);
    }
  }

  ghost function Points(coins: seq<Coin>): set<Outpoint> { set coin | coin in coins :: coin.Point() }

  function WeighCoins(weight: TxOutput -> nat, coins: seq<Coin>): nat {
    if coins == [] then 0 else WeighCoins(weight, coins[..|coins| - 1]) + weight(coins[|coins| - 1].output)
  }

  ghost predicate AllHeld(m: map<Outpoint, TxOutput>, coins: seq<Coin>) {
    forall i | 0 <= i < |coins| :: coins[i].Point() in m && m[coins[i].Point()] == coins[i].output
  }

  lemma PointsGrow(coins: seq<Coin>, n: nat)
    requires |coins| == n + 1 && DistinctPoints(coins)
    ensures Points(coins) == Points(coins[..n]) + {coins[n].Point()} && coins[n].Point() !in Points(coins[..n])
  {
    assert coins == coins[..n] + [coins[n]];
  }

  lemma {:induction false} WeighSpent(weight: TxOutput -> nat, m: map<Outpoint, TxOutput>, coins: seq<Coin>)
    requires AllHeld(m, coins) && DistinctPoints(coins)
    ensures SumOver(weight, m - Points(coins)) + WeighCoins(weight, coins) == SumOver(weight, m)
  {
    if coins == [] {
      assert m - Points(coins) == m;
    } else {
      var n := |coins| - 1;
      WeighSpent(weight, m, coins[..n]);
      PointsGrow(coins, n);
      var left := m - Points(coins[..n]);
      SumWithout(weight, left, coins[n].Point());
      assert left - {coins[n].Point()} == m - Points(coins);
    }
  }

  ghost predicate UnderScript(coins: seq<Coin>, address: string) {
    forall i | 0 <= i < |coins| :: coins[i].output.EffectiveScript() == P2PKH(address)
  }

  /** Coins under the sender's script are worth their sum to the sender and nothing to anyone else. */
  lemma {:induction false} PlainWorth(w: Wallet, coins: seq<Coin>, address: string)
    requires UnderScript(coins, w.address)
    ensures WeighCoins(WorthTo(address), coins) == if address == w.address then Collected(coins) else 0
  {
    if coins != [] { PlainWorth(w, coins[..|coins| - 1], address); }
  }

  lemma OutputsWorth(outputs: seq<TxOutput>, w: Wallet, recipient: string, amount: nat, change: nat, address: string)
    requires Pays(outputs, w, recipient, amount, change)
    ensures Weigh(WorthTo(address), outputs) == (if address == recipient then amount else 0) + if address == w.address then change else 0
  {
    assert outputs[..1][..0] == [];
    assert Weigh(WorthTo(address), outputs[..1]) == WorthTo(address)(outputs[0]);
    if change == 0 { assert outputs[..1] == outputs; }
  }

  lemma SpentArePoints(inputs: seq<TxInput>, w: Wallet, coins: seq<Coin>)
    requires Spends(inputs, w, coins)
    ensures SpentSet(inputs) == Points(coins)
  {
    forall o | o in SpentSet(inputs) ensures o in Points(coins) {
      var i :| 0 <= i < |coins| && Spent(inputs[i]) == o;
      assert coins[i] in coins;
    }
    forall o | o in Points(coins) ensures o in SpentSet(inputs) {
      var i :| 0 <= i < |coins| && coins[i].Point() == o;
      assert inputs[i] in inputs;
    }
  }

  /** A transaction that spends these coins of the wallet and pays amount and change moves exactly that. */
  lemma PaymentMoves(c: Crypto, u: Utxos, w: Wallet, coins: seq<Coin>, recipient: string, amount: nat, change: nat, tx: Transaction,
          address: string)
    requires AllHeld(u.outs, coins) && DistinctPoints(coins) && UnderScript(coins, w.address) && amount + change <= Collected(coins)
    requires Spends(tx.inputs, w, coins) && Pays(tx.outputs, w, recipient, amount, change)
    requires !IsCoinbase(tx) && forall o | o in u.outs :: o.txid != Txid(c, tx)
    ensures Holding(Apply(c, u, tx).outs, address) ==
            Holding(u.outs, address) + (if address == recipient then amount else 0)
            - if address == w.address then Collected(coins) - change else 0
  {
    OutputsWorth(tx.outputs, w, recipient, amount, change, address);
    SpentArePoints(tx.inputs, w, coins);
    WeighSpent(WorthTo(address), u.outs, coins);
    PlainWorth(w, coins, address);
    WeighCreated(WorthTo(address), u.outs - Points(coins), Txid(c, tx), tx.outputs);
  }

  lemma SentIsNoCoinbase(u: Utxos, w: Wallet, tx: Transaction, coins: seq<Coin>)
    requires SmallIndices(u.outs) && AllHeld(u.outs, coins) && Spends(tx.inputs, w, coins)
    ensures !IsCoinbase(tx)
  {
    if |tx.inputs| == 1 { assert Spent(tx.inputs[0]) in u.outs; }
  }

  lemma ChosenAreHeld(u: Utxos, w: Wallet, coins: seq<Coin>, needed: nat)
    requires AllOwned(u.outs, coins, w.address) && DistinctPoints(coins)
    ensures AllHeld(u.outs, Chosen(coins, needed)) && DistinctPoints(Chosen(coins, needed))
  {
    var chosen := Chosen(coins, needed);
    forall i | 0 <= i < |chosen| ensures chosen[i].Point() in u.outs && u.outs[chosen[i].Point()] == chosen[i].output {
      assert Owned(u.outs, coins[i], w.address);
    }
  }

  lemma ChosenMove(c: Crypto, u: Utxos, w: Wallet, coins: seq<Coin>, chosen: seq<Coin>, recipient: string, amount: U64, fee: U64,
          height: nat, tx: Transaction, address: string)
    requires AllOwned(u.outs, coins, w.address) && DistinctPoints(coins) && SmallIndices(u.outs)
    requires chosen == Chosen(coins, amount + fee) && AllPlain(u, w, chosen, height) && amount + fee <= Collected(chosen)
    requires Spends(tx.inputs, w, chosen) && Pays(tx.outputs, w, recipient, amount, Collected(chosen) - amount - fee)
    requires forall o | o in u.outs :: o.txid != Txid(c, tx)
    ensures Holding(Apply(c, u, tx).outs, address) ==
            Holding(u.outs, address) + (if address == recipient then amount else 0) - if address == w.address then amount + fee else 0
  {
    ChosenAreHeld(u, w, coins, amount + fee);
    PlainScripts(u, w, chosen, height);
    SentIsNoCoinbase(u, w, tx, chosen);
    PaymentMoves(c, u, w, chosen, recipient, amount, Collected(chosen) - amount - fee, tx, address);
  }

  /** Ledger effect of a payment, for every address at once: when what `send` built takes effect, the recipient holds `amount`
      more, the sender `amount + fee` less (and only the fee less when paying himself), everyone else the same. */
  lemma SendMoves(c: Crypto, u: Utxos, w: Wallet, coins: seq<Coin>, recipient: string, amount: U64, fee: U64, magic: U32,
          height: nat, tx: Transaction, address: string)
    requires ListedBy(u.outs, w.address, coins) && SmallIndices(u.outs)
    requires AllPlain(u, w, Chosen(coins, amount + fee), height) && Collected(Chosen(coins, amount + fee)) <= MAX_U64
    requires Send(c, w, recipient, amount, fee, coins, magic) == Ok(tx) && forall o | o in u.outs :: o.txid != Txid(c, tx)
    ensures Holding(Apply(c, u, tx).outs, address) ==
            Holding(u.outs, address) + (if address == recipient then amount else 0) - if address == w.address then amount + fee else 0
  {
    SendPays(c, w, recipient, amount, fee, coins, magic, tx);
    CoinsAreOwned(u.outs, w.address, coins);
    var chosen := Chosen(coins, amount + fee);
    ChosenMove(c, u, w, coins, chosen, recipient, amount, fee, height, tx, address);
  }

  lemma PlainScripts(u: Utxos, w: Wallet, coins: seq<Coin>, height: nat)
    requires AllPlain(u, w, coins, height)
    ensures UnderScript(coins, w.address)
  {
    forall i | 0 <= i < |coins| ensures coins[i].output.EffectiveScript() == P2PKH(w.address) {
      assert Plain(u, w, coins[i], height);
    }
  }

  // ---------- one coin named twice ----------

  lemma CollectedTwice(coin: Coin)
    ensures Collected([coin, coin]) == 2 * coin.output.value
  {
    assert [coin][..0] == [];
    assert Collected([coin]) == coin.output.value;
    assert [coin, coin][..1] == [coin];
  }

  lemma RecountedTwice(u: Utxos, w: Wallet, coin: Coin, signature: Signature)
    requires coin.Point() in u.outs && u.outs[coin.Point()] == coin.output
    ensures Recounted(u.outs, Inputs(w, [coin, coin], signature)) == coin.output.value
  {
    var inputs := Inputs(w, [coin, coin], signature);
    assert inputs[..1] == [inputs[0]] && inputs[..1][..0] == [];
    assert Spent(inputs[0]) == coin.Point() && Spent(inputs[1]) == coin.Point();
    assert inputs[0] in inputs[..1];
    assert coin.Point() in SpentSet(inputs[..1]);
    assert SpentSet(inputs[..1][..0]) == {};
    assert Recounted(u.outs, inputs[..1]) == 0;
  }

  /** A transaction of the wallet that names one coin twice and pays it double to itself. */
  function Doubling(c: Crypto, w: Wallet, coin: Coin, magic: U32): Transaction
    requires 2 * coin.output.value <= MAX_U64
  {
    Signed(c, w, [coin, coin], [TxOutput(2 * coin.output.value, None, w.address)], magic)
  }

  lemma DoublingIsValid(c: Crypto, u: Utxos, w: Wallet, coin: Coin, magic: U32, height: nat)
    requires KeysMatch(c, w) && Ripe(u, w, coin, height) && DUST_LIMIT <= 2 * coin.output.value <= MAX_U64
    ensures ValidateTx(c, u, Doubling(c, w, coin, magic), magic, height) == Ok(0)
  {
    CollectedTwice(coin);
    OneOutput(TxOutput(2 * coin.output.value, None, w.address));
    assert AllRipe(u, w, [coin, coin], height);
    SignedIsValid(c, u, w, [coin, coin], [TxOutput(2 * coin.output.value, None, w.address)], magic, height);
  }

  /** Conservation fails for every wallet and every coin that, doubled, clears the dust limit and fits u64: the doubling
      transaction is valid with fee zero and raises the unspent value by the coin's value. */
  lemma RepeatedInputInflates(c: Crypto, u: Utxos, w: Wallet, coin: Coin, magic: U32, height: nat)
    requires KeysMatch(c, w) && Ripe(u, w, coin, height) && DUST_LIMIT <= 2 * coin.output.value <= MAX_U64
    requires forall o | o in u.outs :: o.txid != Txid(c, Doubling(c, w, coin, magic))
    ensures ValidateTx(c, u, Doubling(c, w, coin, magic), magic, height) == Ok(0)
    ensures Total(Apply(c, u, Doubling(c, w, coin, magic)).outs) == Total(u.outs) + coin.output.value
  {
    var tx := Doubling(c, w, coin, magic);
    DoublingIsValid(c, u, w, coin, magic, height);
    var outputs := [TxOutput(2 * coin.output.value, None, w.address)];
    RecountedTwice(u, w, coin, w.sign(SigHash(c, Transaction(Inputs(w, [coin, coin], NO_SIGNATURE), outputs, 1, 0), magic)));
    assert |tx.inputs| == 2;
    TransactionBalance(c, u, tx, magic, height, 0);
  }
}
