/** The hypotheses of the run theorems can be met: concrete primitives, a genesis block and a block mined on it that a run
    accepts, with nothing colliding. */
module Witness {
  import opened Basics
  import opened Transactions
  import opened Targets
  import opened Timestamps
  import opened Emission
  import opened Ledger
  import opened Blocks
  import opened BlockTree
  import opened Nodes
  import opened Invariant
  import opened Runs
  import opened Mining
  import Merkle

  /** Strings whose lengths differ by less than 256 get different digests. */
  function Digest(x: Bytes): (d: Bytes)
    ensures |d| == 32
  {
    Zeros(31) + [|x| % 256]
  }

  /** Lengths as in the real layout, one more for a transaction that pays 1. */
  function Serialize(tx: Transaction): Bytes {
    Zeros(28 + 60 * |tx.inputs| + 17 * |tx.outputs| + if tx.outputs != [] && tx.outputs[0].value == 1 then 1 else 0)
  }

  function HeaderText(h: Header): Bytes { Zeros(1 + h.timestamp) }

  function Primitives(): Crypto {
    Crypto(Digest, Serialize, HeaderText, _ => [], _ => [], (_, _, _) => false, _ => None)
  }

  const BITS: U32 := 0x207f_ffff

  function First(): Transaction { Coinbase(Repeat('0', 40), BlockReward(0), 0) }

  function Second(): Transaction { Coinbase("miner", 1, 1) }

  function Genesis(): Block {
    Block(Header(1, ZERO_HASH, MerkleRoot(Primitives(), [First()]), 0, BITS, 0), [First()], 0)
  }

  /** The block a node mines on genesis at time 0, paying 1. */
  function Mined(): Block { Candidate(Primitives(), Start(Primitives(), 0, Genesis()), [], 1, "miner", 0) }

  lemma AnyHeaderMeets(header: Header)
    requires header.bits == BITS
    ensures MeetsTarget(Primitives(), header)
  {
    FirstByte();
    assert Digest(HeaderText(header))[0] == 0;
  }

  lemma GenesisIsGenesis()
    ensures IsGenesis(Primitives(), Genesis())
  {
    AnyHeaderMeets(Genesis().header);
  }

  lemma MinedFacts()
    ensures Mined().transactions == [Second()] && Mined().height == 1
    ensures Mined().header.bits == BITS && Mined().header.timestamp == 1 && Mined().header.nonce == 0
  {
    EarlyMedian(Start(Primitives(), 0, Genesis()).blocks);
    assert [Second()] + [] == [Second()];
  }

  lemma Sizes()
    ensures Serialize(First()) == Zeros(105) && Serialize(Second()) == Zeros(106)
  {
    assert First().outputs[0].value == BlockReward(0) && Second().outputs[0].value == 1;
  }

  lemma Layout()
    ensures BincodeLayout(Primitives())
  {
  }

  // ---------- nothing collides ----------

  lemma HashedLeaf(leaf: Bytes, x: Bytes)
    requires x in Merkle.Hashed(Digest, [leaf])
    ensures x == leaf || x == LeBytes(1, 8)
  {
    assert Merkle.Leaves([leaf]) == [Merkle.Leaf(leaf)];
  }

  /** The strings a block with one transaction makes the node hash. */
  lemma HashedByOne(b: Block, tx: Transaction, x: Bytes)
    requires b.transactions == [tx] && x in HashInputs(Primitives(), {b})
    ensures x == HeaderText(b.header) || x == Serialize(tx) || x == LeBytes(1, 8)
  {
    assert Serialized(Primitives(), b.transactions) == [Serialize(tx)];
    if x != HeaderText(b.header) { HashedLeaf(Serialize(tx), x); }
  }

  predicate Listed(x: Bytes) {
    x == Zeros(1) || x == Zeros(2) || x == Zeros(105) || x == Zeros(106) || x == LeBytes(1, 8)
  }

  predicate Early(b: Block) { b.transactions == [First()] && b.header.timestamp == 0 }

  predicate Late(b: Block) { b.transactions == [Second()] && b.header.timestamp == 1 }

  lemma HashedEarly(b: Block, x: Bytes)
    requires Early(b) && x in HashInputs(Primitives(), {b})
    ensures Listed(x)
  {
    HashedByOne(b, First(), x);
    Sizes();
  }

  lemma HashedLate(b: Block, x: Bytes)
    requires Late(b) && x in HashInputs(Primitives(), {b})
    ensures Listed(x)
  {
    HashedByOne(b, Second(), x);
    Sizes();
  }

  lemma HashedByTwo(c: Crypto, a: Block, b: Block, x: Bytes)
    requires x in HashInputs(c, {a, b})
    ensures x in HashInputs(c, {a}) || x in HashInputs(c, {b})
  {
  }

  lemma HashedIsListed(a: Block, b: Block, x: Bytes)
    requires Early(a) && Late(b) && x in HashInputs(Primitives(), {a, b})
    ensures Listed(x)
  {
    HashedByTwo(Primitives(), a, b, x);
    if x in HashInputs(Primitives(), {a}) { HashedEarly(a, x); } else { HashedLate(b, x); }
  }

  lemma SameDigest(x: Bytes, y: Bytes)
    requires Digest(x) == Digest(y)
    ensures |x| % 256 == |y| % 256
  {
    assert Digest(x)[31] == |x| % 256 && Digest(y)[31] == |y| % 256;
  }

  lemma DigestsDiffer(s: set<Bytes>)
    requires forall x | x in s :: Listed(x)
    ensures CollisionFree(Digest, s)
  {
    forall x, y | x in s && y in s && Digest(x) == Digest(y) ensures x == y { SameDigest(x, y); }
  }

  lemma HashesDiffer(a: Block, b: Block)
    requires Early(a) && Late(b)
    ensures CollisionFree(Primitives().hash256, HashInputs(Primitives(), {a, b}))
  {
    var s := HashInputs(Primitives(), {a, b});
    forall x | x in s ensures Listed(x) { HashedIsListed(a, b, x); }
    DigestsDiffer(s);
  }

  lemma HeadersDiffer(a: Header, b: Header)
    requires a.timestamp == 0 && b.timestamp == 1
    ensures CollisionFree(Primitives().headerBytes, {a, b})
  {
    assert |HeaderText(a)| == 1 && |HeaderText(b)| == 2;
  }

  lemma BodiesDiffer()
    ensures CollisionFree(Primitives().serialize, {First(), Second()})
  {
    Sizes();
    assert |Zeros(105)| == 105 && |Zeros(106)| == 106;
  }

  lemma OnFewer<A(!new), B(!new)>(f: A -> B, s: set<A>, t: set<A>)
    requires s <= t && CollisionFree(f, t)
    ensures CollisionFree(f, s)
  {
  }

  lemma TwoHeaders(a: Block, b: Block)
    ensures (set x | x in {a, b} :: x.header) <= {a.header, b.header}
  {
  }

  lemma TwoBodies(a: Block, b: Block, t: Transaction, u: Transaction)
    requires a.transactions == [t] && b.transactions == [u]
    ensures (set x, y | x in {a, b} && y in x.transactions :: y) <= {t, u}
  {
  }

  lemma NoneOf(c: Crypto, s: set<Block>, headers: set<Header>, bodies: set<Transaction>)
    requires BincodeLayout(c) && CollisionFree(c.hash256, HashInputs(c, s))
    requires (set x | x in s :: x.header) <= headers && CollisionFree(c.headerBytes, headers)
    requires (set x, y | x in s && y in x.transactions :: y) <= bodies && CollisionFree(c.serialize, bodies)
    ensures CollisionFreeOn(c, s)
  {
    OnFewer(c.headerBytes, set x | x in s :: x.header, headers);
    OnFewer(c.serialize, set x, y | x in s && y in x.transactions :: y, bodies);
  }

  lemma NothingCollides(a: Block, b: Block)
    requires Early(a) && Late(b)
    ensures CollisionFreeOn(Primitives(), {a, b})
  {
    Layout();
    HashesDiffer(a, b);
    HeadersDiffer(a.header, b.header);
    BodiesDiffer();
    TwoHeaders(a, b);
    TwoBodies(a, b, First(), Second());
    NoneOf(Primitives(), {a, b}, {a.header, b.header}, {First(), Second()});
  }

  // ---------- the block is accepted ----------

  lemma {:induction false} FirstByteBound(s: Bytes)
    requires s != []
    ensures FromBe(s) >= s[0]
  {
    if |s| > 1 { FirstByteBound(s[..|s| - 1]); }
  }

  lemma WorkIsSmall(bits: U32)
    requires Target(bits)[0] >= 2
    ensures 2 * BlockWork(bits) <= MAX_U128
  {
    FirstByteBound(Target(bits)[..16]);
    DivMonotone(MAX_U128, 2, FromBe(Target(bits)[..16]));
  }

  lemma FirstByte()
    ensures Target(BITS)[0] == 0x7f
  {
    assert Exponent(BITS) == 32 && Mantissa(BITS) == 0x7f_ffff;
    assert Target(BITS)[0] == TargetByte(Mantissa(BITS), 0, 0);
  }

  lemma HashesOfBlocksDiffer(a: Block, b: Block)
    requires Early(a) && Late(b)
    ensures BlockHash(Primitives(), b) != BlockHash(Primitives(), a)
  {
    if BlockHash(Primitives(), b) == BlockHash(Primitives(), a) {
      HexInjective(Digest(HeaderText(b.header)), Digest(HeaderText(a.header)));
      SameDigest(HeaderText(b.header), HeaderText(a.header));
    }
  }

  lemma MinedIsSmall()
    ensures FitsLimits(Primitives(), Mined())
  {
    MinedFacts();
    Sizes();
    var txs := [Second()];
    assert txs[..0] == [];
    assert |Second().inputs| == 1 && |Second().outputs| == 1;
    assert TxBytes(Primitives(), txs) == TxBytes(Primitives(), txs[..0]) + 106;
    assert UtxoOps(txs) == UtxoOps(txs[..0]) + 1 + 1;
  }

  lemma MinedIsReady()
    ensures Ready(Primitives(), Start(Primitives(), 0, Genesis()), [], 1, Mined(), 0)
  {
    MinedFacts();
    MinedIsSmall();
    AnyHeaderMeets(Mined().header);
    var n := Start(Primitives(), 0, Genesis());
    assert n.minted == CoinbaseValue(Genesis());
    GenesisValue();
    assert BlockReward(1) >= 1;
  }

  lemma GenesisValue()
    ensures CoinbaseValue(Genesis()) == BlockReward(0) && BlockReward(0) + 1 <= MAX_SUPPLY
  {
    assert First().outputs[..0] == [];
    assert SumOutputs(First().outputs) == SumOutputs(First().outputs[..0]) + BlockReward(0);
  }

  lemma MinedValue()
    ensures CoinbaseValue(Mined()) == 1
  {
    MinedFacts();
    assert Second().outputs[..0] == [];
    assert SumOutputs(Second().outputs) == SumOutputs(Second().outputs[..0]) + 1;
  }

  lemma WorkOfGenesis()
    ensures Work(RulesOf(Primitives(), 0, Genesis()), [Genesis()]) == BlockWork(BITS)
  {
    WorkGrows(RulesOf(Primitives(), 0, Genesis()), [], Genesis());
    assert [] + [Genesis()] == [Genesis()];
  }

  lemma MinedFits()
    ensures TotalsFit(Primitives(), Genesis(), Start(Primitives(), 0, Genesis()),
                      map[BlockHash(Primitives(), Genesis()) := Genesis()], Mined())
  {
    MinedFacts();
    HashesOfBlocksDiffer(Genesis(), Mined());
    GenesisValue();
    MinedValue();
    FirstByte();
    WorkIsSmall(BITS);
    WorkOfGenesis();
  }

  /** A ready candidate whose search ends at once and whose totals fit extends the chain. */
  lemma ReadyExtends(c: Crypto, g: Block, n: Node, hist: map<Hash, Block>, pay: U64, miner: string)
    requires Inv(c, g, n, hist) && |n.blocks| == 1 && n.blocks[0].header.timestamp == 0
    requires var b := Candidate(c, n, [], pay, miner, 0); Ready(c, n, [], pay, b, 0) && TotalsFit(c, g, n, hist, b)
    ensures AddBlock(c, n, Candidate(c, n, [], pay, miner, 0), 0).node.blocks == n.blocks + [Candidate(c, n, [], pay, miner, 0)]
  {
    var b := Candidate(c, n, [], pay, miner, 0);
    EarlyMedian(n.blocks);
    CandidateIsLawful(c, g, n, hist, [], pay, miner, 0, 0);
    assert Mining.Solved(b, 0) == b;
    ExtendsTip(c, g, n, hist, b, 0);
  }

  lemma ReadyFromStart(c: Crypto, g: Block, pay: U64, miner: string)
    requires IsGenesis(c, g) && g.header.timestamp == 0
    requires var n := Start(c, 0, g); var b := Candidate(c, n, [], pay, miner, 0);
             Ready(c, n, [], pay, b, 0) && TotalsFit(c, g, n, map[BlockHash(c, g) := g], b)
    ensures var b := Candidate(c, Start(c, 0, g), [], pay, miner, 0); AddBlock(c, Start(c, 0, g), b, 0).node.blocks == [g, b]
  {
    StartHolds(c, 0, g);
    ReadyExtends(c, g, Start(c, 0, g), map[BlockHash(c, g) := g], pay, miner);
  }

  lemma MinedIsAccepted()
    ensures AddBlock(Primitives(), Start(Primitives(), 0, Genesis()), Mined(), 0).node.blocks == [Genesis(), Mined()]
  {
    GenesisIsGenesis();
    MinedIsReady();
    MinedFits();
    ReadyFromStart(Primitives(), Genesis(), 1, "miner");
  }

  lemma EarlyMedian(blocks: seq<Block>)
    requires |blocks| == 1 && blocks[0].header.timestamp == 0
    ensures PastMedian(TimestampsOf(blocks)) == 0
  {
    assert TimestampsOf(blocks) == [0];
    assert Recent([0]) == [0] && [0][1..] == [];
  }

  function Delivery(): seq<Event> { [Deliver(Mined(), 0)] }

  lemma RunAccepts()
    ensures IsGenesis(Primitives(), Genesis()) && Run(Primitives(), 0, Genesis(), Delivery()).blocks == [Genesis(), Mined()]
  {
    GenesisIsGenesis();
    MinedIsAccepted();
    assert Delivery()[..0] == [];
  }

  lemma SeenIsTwo(g: Block, b: Block, now: nat)
    ensures Seen(g, [Deliver(b, now)]) == {g, b}
  {
    var events := [Deliver(b, now)];
    assert events[0] in events;
  }

  lemma OnlyCanonicalsMatter(c: Crypto, s: set<Block>)
    requires CollisionFreeOn(c, s)
    ensures NoCollisions(c, s)
  {
    OnFewer(c.hash256, HashInputs(c, Canonicals(c, s)), HashInputs(c, s));
    NoneOf(c, Canonicals(c, s), set b | b in s :: b.header, set b, t | b in s && t in b.transactions :: t);
  }

  /** A run that starts from genesis and accepts a mined block meets the hypotheses of the run theorems. */
  lemma HypothesesCanBeMet()
    ensures IsGenesis(Primitives(), Genesis()) && NoCollisions(Primitives(), Seen(Genesis(), Delivery()))
    ensures Run(Primitives(), 0, Genesis(), Delivery()).blocks == [Genesis(), Mined()]
  {
    RunAccepts();
    SeenIsTwo(Genesis(), Mined(), 0);
    NothingCollides(Genesis(), Mined());
    MinedFacts();
    OnlyCanonicalsMatter(Primitives(), {Genesis(), Mined()});
  }
}
