/** Transactions, locking scripts and the primitives they rest on (src/transaction/tx.rs). */
module Transactions {
  import opened Basics

  datatype PublicKey = PublicKey(ecdsa: Bytes, dilithium: Bytes)

  datatype Signature = Signature(ecdsa: Bytes, dilithium: Bytes)

  const NO_KEY := PublicKey([], [])
  const NO_SIGNATURE := Signature([], [])

  datatype Script =
    | P2PKH(owner: string)
    | P2MS(m: Byte, pubkeys: seq<PublicKey>)
    | TimeLocked(lockUntil: U64, inner: Script)

  datatype Witness = Witness(signature: Signature, pubkey: PublicKey)

  datatype TxInput = TxInput(
    prevTxHash: Hash,
    prevIndex: U32,
    signature: Signature,
    pubkey: PublicKey,
    coinbaseExtra: Bytes,
    witnesses: seq<Witness>)

  datatype TxOutput = TxOutput(value: U64, script: Option<Script>, address: string)
  {
    /** Outputs without a script are plain P2PKH outputs. */
    function EffectiveScript(): Script {
      match script
      case Some(s) => s
      case None => P2PKH(address)
    }
  }

  datatype Transaction = Transaction(inputs: seq<TxInput>, outputs: seq<TxOutput>, version: U32, lockTime: U64)

  /** A block header (src/blockchain/block.rs); `bits` is the compact difficulty target. */
  datatype Header = Header(
    version: U32,
    prevHash: Hash,
    merkleRoot: Hash,
    timestamp: nat,
    bits: U32,
    nonce: U64)

  /** The library calls: hashing, serialisation, signature verification and address derivation.
      `hybridAddress` has no value when the ECDSA half of a key does not parse. */
  datatype Crypto = Crypto(
    hash256: HashFn,
    serialize: Transaction -> Bytes,
    headerBytes: Header -> Bytes,
    scriptBytes: Script -> Bytes,
    textBytes: string -> Bytes,
    verify: (Signature, Bytes, PublicKey) -> bool,
    hybridAddress: PublicKey -> Option<string>)

  const ZERO_HASH: Hash := Repeat('0', 64)

  function TxDigest(c: Crypto, tx: Transaction): Bytes { c.hash256(c.serialize(tx)) }

  function Txid(c: Crypto, tx: Transaction): Hash { Hex(TxDigest(c, tx)) }

  function TxSize(c: Crypto, tx: Transaction): nat { |c.serialize(tx)| }

  predicate IsCoinbase(tx: Transaction) {
    && |tx.inputs| == 1
    && tx.inputs[0].prevTxHash == ZERO_HASH
    && tx.inputs[0].prevIndex == MAX_U32
  }

  /** The block height a coinbase declares: the first eight bytes of its extra data. */
  function DeclaredHeight(tx: Transaction): nat
    requires IsCoinbase(tx)
  {
    var extra := tx.inputs[0].coinbaseExtra;
    if |extra| >= 8 then FromLe(extra[..8]) else 0
  }

  function Coinbase(miner: string, reward: U64, height: nat): (tx: Transaction)
    ensures IsCoinbase(tx)
  {
    Transaction(
      [TxInput(ZERO_HASH, MAX_U32, NO_SIGNATURE, NO_KEY, LeBytes(height, 8), [])],
      [TxOutput(reward, Some(P2PKH(miner)), miner)],
      1, 0)
  }

  /** A coinbase declares the height it was built for, whenever that height is a u64. */
  lemma CoinbaseDeclares(miner: string, reward: U64, height: nat)
    requires height < Pow256(8)
    ensures DeclaredHeight(Coinbase(miner, reward, height)) == height
  {
    LeRoundTrip(height, 8);
    assert LeBytes(height, 8)[..8] == LeBytes(height, 8);
  }

  // ---------- sig_hash ----------

  function InputCommitment(c: Crypto, input: TxInput): Bytes {
    c.textBytes(input.prevTxHash) + LeBytes(input.prevIndex, 4) + input.pubkey.ecdsa + input.pubkey.dilithium
  }

  function OutputCommitment(c: Crypto, output: TxOutput): Bytes {
    var script := c.scriptBytes(output.EffectiveScript());
    LeBytes(output.value, 8) + LeBytes(|script|, 4) + script
  }

  function InputCommitments(c: Crypto, inputs: seq<TxInput>): Bytes {
    if inputs == [] then []
    else InputCommitments(c, inputs[..|inputs| - 1]) + InputCommitment(c, inputs[|inputs| - 1])
  }

  function OutputCommitments(c: Crypto, outputs: seq<TxOutput>): Bytes {
    if outputs == [] then []
    else OutputCommitments(c, outputs[..|outputs| - 1]) + OutputCommitment(c, outputs[|outputs| - 1])
  }

  function SigPreimage(c: Crypto, tx: Transaction, magic: U32): Bytes {
    LeBytes(magic, 4) + LeBytes(tx.version, 4) + InputCommitments(c, tx.inputs) + OutputCommitments(c, tx.outputs)
  }

  function SigHash(c: Crypto, tx: Transaction, magic: U32): Bytes { c.hash256(SigPreimage(c, tx, magic)) }

  method CommitInputs(c: Crypto, inputs: seq<TxInput>) returns (data: Bytes)
    ensures data == InputCommitments(c, inputs)
  {
    data := [];
    for i := 0 to |inputs|
      invariant data == InputCommitments(c, inputs[..i])
    {
      assert inputs[..i + 1][..i] == inputs[..i];
      data := data + InputCommitment(c, inputs[i]);
    }
    assert inputs[..|inputs|] == inputs;
  }

  method CommitOutputs(c: Crypto, outputs: seq<TxOutput>) returns (data: Bytes)
    ensures data == OutputCommitments(c, outputs)
  {
    data := [];
    for i := 0 to |outputs|
      invariant data == OutputCommitments(c, outputs[..i])
    {
      assert outputs[..i + 1][..i] == outputs[..i];
      data := data + OutputCommitment(c, outputs[i]);
    }
    assert outputs[..|outputs|] == outputs;
  }

  /** The signing buffer, filled input by input and output by output. */
  method ComputeSigHash(c: Crypto, tx: Transaction, magic: U32) returns (digest: Bytes)
    ensures digest == SigHash(c, tx, magic)
  {
    var ins := CommitInputs(c, tx.inputs);
    var outs := CommitOutputs(c, tx.outputs);
    digest := c.hash256(LeBytes(magic, 4) + LeBytes(tx.version, 4) + ins + outs);
  }

  /** Two inputs that differ at most in signature, extra data and witnesses. */
  predicate SameSpend(a: TxInput, b: TxInput) {
    a.prevTxHash == b.prevTxHash && a.prevIndex == b.prevIndex && a.pubkey == b.pubkey
  }

  predicate SameSpends(a: seq<TxInput>, b: seq<TxInput>) {
    |a| == |b| && forall i | 0 <= i < |a| :: SameSpend(a[i], b[i])
  }

  lemma {:induction false} CommitmentsIgnoreSignatures(c: Crypto, a: seq<TxInput>, b: seq<TxInput>)
    requires SameSpends(a, b)
    ensures InputCommitments(c, a) == InputCommitments(c, b)
  {
    if a != [] {
      CommitmentsIgnoreSignatures(c, a[..|a| - 1], b[..|b| - 1]);
      assert SameSpend(a[|a| - 1], b[|b| - 1]);
    }
  }

  /** Signing cannot change what is signed: signatures and witnesses are outside the signed bytes. */
  lemma SigHashIgnoresSignatures(c: Crypto, a: Transaction, b: Transaction, magic: U32)
    requires SameSpends(a.inputs, b.inputs) && a.outputs == b.outputs && a.version == b.version
    ensures SigHash(c, a, magic) == SigHash(c, b, magic)
  {
    CommitmentsIgnoreSignatures(c, a.inputs, b.inputs);
  }

  // ---------- what a signature commits to ----------

  lemma LeInjective(m: nat, n: nat, width: nat)
    requires m < Pow256(width) && n < Pow256(width) && LeBytes(m, width) == LeBytes(n, width)
    ensures m == n
  {
    LeRoundTrip(m, width);
    LeRoundTrip(n, width);
  }

  lemma Widths()
    ensures Pow256(4) == MAX_U32 + 1 && Pow256(8) == MAX_U64 + 1
  {
    assert Pow256(2) == 0x1_0000;
    assert Pow256(4) == 0x1_0000_0000;
    PowAdd(4, 4);
  }

  /** Two strings that start with blocks of one length agree exactly when the blocks and the rests do. */
  lemma Split(a: Bytes, x: Bytes, b: Bytes, y: Bytes)
    requires |a| == |b|
    ensures a + x == b + y <==> a == b && x == y
  {
    if a + x == b + y {
      assert a == (a + x)[..|a|] && b == (b + y)[..|a|];
      assert x == (a + x)[|a|..] && y == (b + y)[|a|..];
    }
  }

  /** Script bytes whose length the four-byte prefix can hold. */
  predicate Fits(c: Crypto, outputs: seq<TxOutput>) {
    forall i | 0 <= i < |outputs| :: |c.scriptBytes(outputs[i].EffectiveScript())| <= MAX_U32
  }

  /** The same value under the same script bytes. */
  predicate SamePay(c: Crypto, a: TxOutput, b: TxOutput) {
    a.value == b.value && c.scriptBytes(a.EffectiveScript()) == c.scriptBytes(b.EffectiveScript())
  }

  predicate SamePays(c: Crypto, a: seq<TxOutput>, b: seq<TxOutput>) {
    |a| == |b| && forall i | 0 <= i < |a| :: SamePay(c, a[i], b[i])
  }

  lemma Regroup(x: Bytes, y: Bytes, z: Bytes)
    ensures x + y + z == x + (y + z)
  {
  }

  lemma {:induction false} FirstOutput(c: Crypto, outputs: seq<TxOutput>)
    requires outputs != []
    ensures OutputCommitments(c, outputs) == OutputCommitment(c, outputs[0]) + OutputCommitments(c, outputs[1..])
  {
    var front, last := outputs[..|outputs| - 1], outputs[|outputs| - 1];
    if front == [] {
      assert outputs[1..] == [];
    } else {
      FirstOutput(c, front);
      var rest := outputs[1..];
      assert front[1..] == rest[..|rest| - 1] && rest[|rest| - 1] == last;
      Regroup(OutputCommitment(c, outputs[0]), OutputCommitments(c, front[1..]), OutputCommitment(c, last));
    }
  }

  /** One output read off the front of the signed bytes: value, then length, then script. */
  lemma ReadOutput(c: Crypto, a: TxOutput, x: Bytes, b: TxOutput, y: Bytes)
    requires |c.scriptBytes(a.EffectiveScript())| <= MAX_U32 && |c.scriptBytes(b.EffectiveScript())| <= MAX_U32
    requires OutputCommitment(c, a) + x == OutputCommitment(c, b) + y
    ensures SamePay(c, a, b) && x == y
  {
    var s, t := c.scriptBytes(a.EffectiveScript()), c.scriptBytes(b.EffectiveScript());
    Widths();
    assert OutputCommitment(c, a) + x == LeBytes(a.value, 8) + (LeBytes(|s|, 4) + (s + x));
    assert OutputCommitment(c, b) + y == LeBytes(b.value, 8) + (LeBytes(|t|, 4) + (t + y));
    Split(LeBytes(a.value, 8), LeBytes(|s|, 4) + (s + x), LeBytes(b.value, 8), LeBytes(|t|, 4) + (t + y));
    Split(LeBytes(|s|, 4), s + x, LeBytes(|t|, 4), t + y);
    LeInjective(a.value, b.value, 8);
    LeInjective(|s|, |t|, 4);
    Split(s, x, t, y);
  }

  /** The signed bytes of the outputs can be read back: number of outputs, values and script bytes. */
  lemma {:induction false} OutputsReadBack(c: Crypto, a: seq<TxOutput>, b: seq<TxOutput>)
    requires Fits(c, a) && Fits(c, b) && OutputCommitments(c, a) == OutputCommitments(c, b)
    ensures SamePays(c, a, b)
  {
    if a != [] && b != [] {
      FirstOutput(c, a);
      FirstOutput(c, b);
      ReadOutput(c, a[0], OutputCommitments(c, a[1..]), b[0], OutputCommitments(c, b[1..]));
      OutputsReadBack(c, a[1..], b[1..]);
      PaysGrow(c, a, b);
    } else if a != [] {
      FirstOutput(c, a);
    } else if b != [] {
      FirstOutput(c, b);
    }
  }

  lemma PaysGrow(c: Crypto, a: seq<TxOutput>, b: seq<TxOutput>)
    requires a != [] && b != [] && SamePay(c, a[0], b[0]) && SamePays(c, a[1..], b[1..])
    ensures SamePays(c, a, b)
  {
    forall i | 0 <= i < |a| ensures SamePay(c, a[i], b[i]) {
      if i > 0 { assert SamePay(c, a[1..][i - 1], b[1..][i - 1]); }
    }
  }

  lemma {:induction false} SamePaysCommit(c: Crypto, a: seq<TxOutput>, b: seq<TxOutput>)
    requires SamePays(c, a, b)
    ensures OutputCommitments(c, a) == OutputCommitments(c, b)
  {
    if a != [] {
      SamePaysCommit(c, a[..|a| - 1], b[..|b| - 1]);
      assert SamePay(c, a[|a| - 1], b[|b| - 1]);
    }
  }

  /** Fields of equal lengths: the inputs' fields carry no length prefix in the signed bytes. */
  predicate SameShape(c: Crypto, a: TxInput, b: TxInput) {
    && |c.textBytes(a.prevTxHash)| == |c.textBytes(b.prevTxHash)|
    && |a.pubkey.ecdsa| == |b.pubkey.ecdsa| && |a.pubkey.dilithium| == |b.pubkey.dilithium|
  }

  predicate SameShapes(c: Crypto, a: seq<TxInput>, b: seq<TxInput>) {
    |a| == |b| && forall i | 0 <= i < |a| :: SameShape(c, a[i], b[i])
  }

  /** The same outpoint text, index and keys. */
  predicate SameCommitted(c: Crypto, a: TxInput, b: TxInput) {
    c.textBytes(a.prevTxHash) == c.textBytes(b.prevTxHash) && a.prevIndex == b.prevIndex && a.pubkey == b.pubkey
  }

  predicate AllSameCommitted(c: Crypto, a: seq<TxInput>, b: seq<TxInput>) {
    |a| == |b| && forall i | 0 <= i < |a| :: SameCommitted(c, a[i], b[i])
  }

  lemma ReadInput(c: Crypto, a: TxInput, b: TxInput)
    requires SameShape(c, a, b)
    ensures |InputCommitment(c, a)| == |InputCommitment(c, b)|
    ensures InputCommitment(c, a) == InputCommitment(c, b) <==> SameCommitted(c, a, b)
  {
    var s, t := c.textBytes(a.prevTxHash), c.textBytes(b.prevTxHash);
    var i, j := LeBytes(a.prevIndex, 4), LeBytes(b.prevIndex, 4);
    Widths();
    Split(s + i + a.pubkey.ecdsa, a.pubkey.dilithium, t + j + b.pubkey.ecdsa, b.pubkey.dilithium);
    Split(s + i, a.pubkey.ecdsa, t + j, b.pubkey.ecdsa);
    Split(s, i, t, j);
    if i == j { LeInjective(a.prevIndex, b.prevIndex, 4); }
  }

  lemma {:induction false} InputsReadBack(c: Crypto, a: seq<TxInput>, b: seq<TxInput>)
    requires SameShapes(c, a, b)
    ensures |InputCommitments(c, a)| == |InputCommitments(c, b)|
    ensures InputCommitments(c, a) == InputCommitments(c, b) <==> AllSameCommitted(c, a, b)
  {
    if a != [] {
      var n := |a| - 1;
      InputsReadBack(c, a[..n], b[..n]);
      ReadInput(c, a[n], b[n]);
      Split(InputCommitments(c, a[..n]), InputCommitment(c, a[n]), InputCommitments(c, b[..n]), InputCommitment(c, b[n]));
      CommittedGrows(c, a, b, n);
    }
  }

  lemma CommittedGrows(c: Crypto, a: seq<TxInput>, b: seq<TxInput>, n: nat)
    requires |a| == |b| == n + 1
    ensures AllSameCommitted(c, a, b) <==> AllSameCommitted(c, a[..n], b[..n]) && SameCommitted(c, a[n], b[n])
  {
    if AllSameCommitted(c, a[..n], b[..n]) && SameCommitted(c, a[n], b[n]) {
      forall i | 0 <= i < |a| ensures SameCommitted(c, a[i], b[i]) {
        if i < n { assert SameCommitted(c, a[..n][i], b[..n][i]); }
      }
    }
  }

  /** What a signature binds. Between transactions whose input fields have equal lengths, the signed bytes are equal exactly
      when network, version, every outpoint, every key, and the number, values and scripts of the outputs are. */
  lemma SigPreimageExact(c: Crypto, a: Transaction, b: Transaction, magicA: U32, magicB: U32)
    requires SameShapes(c, a.inputs, b.inputs) && Fits(c, a.outputs) && Fits(c, b.outputs)
    ensures SigPreimage(c, a, magicA) == SigPreimage(c, b, magicB) <==>
            && magicA == magicB && a.version == b.version
            && AllSameCommitted(c, a.inputs, b.inputs) && SamePays(c, a.outputs, b.outputs)
  {
    var ia, ib := InputCommitments(c, a.inputs), InputCommitments(c, b.inputs);
    var oa, ob := OutputCommitments(c, a.outputs), OutputCommitments(c, b.outputs);
    Widths();
    InputsReadBack(c, a.inputs, b.inputs);
    Split(LeBytes(magicA, 4) + LeBytes(a.version, 4) + ia, oa, LeBytes(magicB, 4) + LeBytes(b.version, 4) + ib, ob);
    Split(LeBytes(magicA, 4) + LeBytes(a.version, 4), ia, LeBytes(magicB, 4) + LeBytes(b.version, 4), ib);
    Split(LeBytes(magicA, 4), LeBytes(a.version, 4), LeBytes(magicB, 4), LeBytes(b.version, 4));
    if oa == ob { OutputsReadBack(c, a.outputs, b.outputs); }
    if SamePays(c, a.outputs, b.outputs) { SamePaysCommit(c, a.outputs, b.outputs); }
    if LeBytes(magicA, 4) == LeBytes(magicB, 4) { LeInjective(magicA, magicB, 4); }
    if LeBytes(a.version, 4) == LeBytes(b.version, 4) { LeInjective(a.version, b.version, 4); }
  }

  lemma DigestsTell(h: HashFn, x: Bytes, y: Bytes)
    requires CollisionFree(h, {x, y})
    ensures h(x) == h(y) <==> x == y
  {
  }

  ghost function Texts(inputs: seq<TxInput>): set<string> { set i | i in inputs :: i.prevTxHash }

  lemma CommittedIsSpent(c: Crypto, a: seq<TxInput>, b: seq<TxInput>)
    requires CollisionFree(c.textBytes, Texts(a) + Texts(b))
    ensures AllSameCommitted(c, a, b) <==> SameSpends(a, b)
  {
    if AllSameCommitted(c, a, b) {
      forall i | 0 <= i < |a| ensures SameSpend(a[i], b[i]) {
        assert SameCommitted(c, a[i], b[i]) && a[i] in a && b[i] in b;
      }
    }
  }

  /** So a digest that a signer approved is the digest of no transaction that pays differently, spends differently or
      belongs to another network, unless the hash or the text encoding collides. */
  lemma SignatureBinds(c: Crypto, a: Transaction, b: Transaction, magicA: U32, magicB: U32)
    requires SameShapes(c, a.inputs, b.inputs) && Fits(c, a.outputs) && Fits(c, b.outputs)
    requires CollisionFree(c.hash256, {SigPreimage(c, a, magicA), SigPreimage(c, b, magicB)})
    requires CollisionFree(c.textBytes, Texts(a.inputs) + Texts(b.inputs))
    ensures SigHash(c, a, magicA) == SigHash(c, b, magicB) <==>
            magicA == magicB && a.version == b.version && SameSpends(a.inputs, b.inputs) && SamePays(c, a.outputs, b.outputs)
  {
    SigPreimageExact(c, a, b, magicA, magicB);
    CommittedIsSpent(c, a.inputs, b.inputs);
    DigestsTell(c.hash256, SigPreimage(c, a, magicA), SigPreimage(c, b, magicB));
  }

  /** Why equal lengths are asked for: where one half of a key ends and the other begins is not part of the signed bytes. */
  lemma KeyBoundaryIsNotSigned(c: Crypto, input: TxInput, key: PublicKey)
    requires key.ecdsa + key.dilithium == input.pubkey.ecdsa + input.pubkey.dilithium
    ensures InputCommitment(c, input) == InputCommitment(c, input.(pubkey := key))
  {
    var head := c.textBytes(input.prevTxHash) + LeBytes(input.prevIndex, 4);
    assert InputCommitment(c, input) == head + (input.pubkey.ecdsa + input.pubkey.dilithium);
    assert InputCommitment(c, input.(pubkey := key)) == head + (key.ecdsa + key.dilithium);
  }
}
