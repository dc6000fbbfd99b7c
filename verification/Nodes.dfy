/** A node: its active chain, its block tree, its caches and its pool, moved by delivered blocks and
    submitted transactions (`Blockchain` of src/blockchain/chain.rs). */
module Nodes {
  import opened Basics
  import opened Transactions
  import opened Ledger
  import opened Targets
  import opened Blocks
  import opened BlockTree
  import opened Pools

  datatype Node = Node(
    magic: U32,
    blocks: seq<Block>,
    index: map<Hash, nat>,
    all: map<Hash, Block>,
    work: map<Hash, nat>,
    utxo: Utxos,
    pool: Pool,
    minted: nat)
  {
    function Forest(): Forest { BlockTree.Forest(blocks, all, work) }

    function WithForest(f: Forest): Node { this.(blocks := f.blocks, all := f.all, work := f.work) }
  }

  /** A state after a call, and what the call returned. */
  datatype Step = Step(node: Node, result: Result<()>)

  function KeyOf(c: Crypto): Block -> Hash { (b: Block) => BlockHash(c, b) }

  function TipHash(c: Crypto, n: Node): Hash
    requires n.blocks != []
  {
    BlockHash(c, n.blocks[|n.blocks| - 1])
  }

  /** Height of every active block by hash, as rebuilding fills it. */
  function IndexOf(key: Block -> Hash, chain: seq<Block>): map<Hash, nat> {
    if chain == [] then map[]
    else IndexOf(key, chain[..|chain| - 1])[key(chain[|chain| - 1]) := |chain| - 1]
  }

  function RemoveBlocks(c: Crypto, p: Pool, chain: seq<Block>): Pool {
    if chain == [] then p
    else RemoveAll(c, RemoveBlocks(c, p, chain[..|chain| - 1]), chain[|chain| - 1].transactions)
  }

  /** `from_genesis_with_magic`. */
  function Start(c: Crypto, magic: U32, g: Block): (n: Node)
    ensures n.blocks == [g]
  {
    var h := BlockHash(c, g);
    Node(magic, [g], map[h := 0], map[h := g], map[h := BlockWork(g.header.bits)],
         ApplyAll(c, EMPTY_UTXOS, g.transactions), EMPTY_POOL, CoinbaseValue(g))
  }

  // ---------- the context of a block ----------

  datatype Context = Context(chain: seq<Block>, ledger: Replayed)

  /** The slow path of `parent_context`: walk to genesis and replay. */
  function ReplayContext(c: Crypto, all: map<Hash, Block>, parent: Hash): (r: Result<Context>)
    ensures r.Ok? ==> Numbered(r.value.chain)
  {
    match ChainTo(all, parent)
    case None => Err(UnknownBlock)
    case Some(chain) =>
      match Replay(c, chain)
      case None => Err(MintedOverflow)
      case Some(ledger) => Ok(Context(chain, ledger))
  }

  /** `parent_context`: on the active tip the cached state is handed out instead. */
  function ParentContext(c: Crypto, n: Node, parent: Hash): (r: Result<Context>)
    requires Numbered(n.blocks)
    ensures r.Ok? ==> Numbered(r.value.chain)
  {
    if parent == TipHash(c, n) then Ok(Context(n.blocks, Replayed(n.utxo, n.minted)))
    else ReplayContext(c, n.all, parent)
  }

  /** The checks a block must pass before its branch is looked at. */
  function CheckLink(c: Crypto, parent: Option<Block>, b: Block): (r: Result<()>)
    ensures r.Ok? ==> b.transactions != []
  {
    if parent.None? then Err(UnknownParent)
    else
      var structure := ValidateStructure(c, b, BlockHash(c, parent.value));
      if structure.Err? then structure
      else if b.height != parent.value.height + 1 then Err(HeightMismatch)
      else Ok(())
  }

  /** The total work of a block that passed, unless it leaves u128. */
  function Weigh(verdict: Result<()>, work: Option<nat>, added: nat): Result<nat> {
    if verdict.Err? then Err(verdict.error)
    else if work.None? then Err(MissingWork)
    else if work.value + added > MAX_U128 then Err(WorkOverflow)
    else Ok(work.value + added)
  }

  /** The part of `add_block` that only reads, given the parent, its work and its context: the candidate's total
      work, or why not. */
  function CheckIn(c: Crypto, magic: U32, parent: Option<Block>, work: Option<nat>, context: Result<Context>,
          b: Block, now: nat): Result<nat>
    requires context.Ok? ==> Numbered(context.value.chain)
  {
    var link := CheckLink(c, parent, b);
    if link.Err? then Err(link.error)
    else if context.Err? then Err(context.error)
    else
      Weigh(ValidateInContext(c, magic, context.value.chain, context.value.ledger, b, now), work, BlockWork(b.header.bits))
  }

  function Check(c: Crypto, n: Node, b: Block, now: nat): Result<nat>
    requires Numbered(n.blocks)
  {
    var parent := b.header.prevHash;
    CheckIn(c, n.magic, Lookup(n.all, parent), Lookup(n.work, parent), ParentContext(c, n, parent), b, now)
  }

  // ---------- changing the active chain ----------

  /** The longest prefix of a chain that replays. */
  function Replayable(c: Crypto, chain: seq<Block>): seq<Block> {
    if chain == [] || Replay(c, chain).Some? then chain else Replayable(c, chain[..|chain| - 1])
  }

  /** `rebuild_active_state`: the pool loses the blocks' transactions even when the minted total overflows. */
  function Rebuild(c: Crypto, n: Node, chain: seq<Block>): Step {
    var pool := RemoveBlocks(c, n.pool, Replayable(c, chain));
    match Replay(c, chain)
    case None => Step(n.(pool := pool), Err(MintedOverflow))
    case Some(r) =>
      Step(n.(blocks := chain, index := IndexOf(KeyOf(c), chain), utxo := r.utxo, minted := r.minted, pool := pool), Ok(()))
  }

  /** `activate_chain`. */
  function Activate(c: Crypto, n: Node, h: Hash): (s: Step)
    ensures Numbered(n.blocks) ==> Numbered(s.node.blocks)
    ensures s.node.magic == n.magic
  {
    match ChainTo(n.all, h)
    case None => Step(n, Err(UnknownBlock))
    case Some(chain) => Rebuild(c, n, chain)
  }

  /** `prune_stale_orphans`. */
  function Prune(c: Crypto, n: Node): Node { n.WithForest(Pruned(KeyOf(c), n.Forest())) }

  function Store(c: Crypto, n: Node, b: Block, w: nat): Node { n.WithForest(Stored(KeyOf(c), n.Forest(), b, w)) }

  /** Pruning comes last, and only when nothing failed. */
  function Finish(c: Crypto, s: Step): Step { if s.result.Err? then s else Step(Prune(c, s.node), Ok(())) }

  /** `add_block` once the block has been validated. */
  function Admit(c: Crypto, n: Node, b: Block, w: nat): (s: Step)
    requires Numbered(n.blocks)
    ensures Numbered(s.node.blocks) && s.node.magic == n.magic
  {
    var m := Store(c, n, b, w);
    if TipHash(c, m) !in m.work then Step(m, Err(MissingWork))
    else if w > m.work[TipHash(c, m)] then Finish(c, Activate(c, m, BlockHash(c, b)))
    else Finish(c, Step(m, Ok(())))
  }

  /** `add_block`. */
  function AddBlock(c: Crypto, n: Node, b: Block, now: nat): (s: Step)
    requires Numbered(n.blocks)
    ensures Numbered(s.node.blocks) && s.node.magic == n.magic
  {
    if BlockHash(c, b) in n.all then Step(n, Ok(()))
    else
      match Check(c, n, b, now)
      case Err(e) => Step(n, Err(e))
      case Ok(w) => Admit(c, n, b, w)
  }

  /** `validate_tx`: the fee of a transaction against the active tip. */
  function TipPrice(c: Crypto, n: Node, tx: Transaction): Result<nat>
    requires Numbered(n.blocks)
  {
    ValidateTx(c, n.utxo, tx, n.magic, n.blocks[|n.blocks| - 1].height)
  }

  datatype Submission = Submission(node: Node, result: Result<Hash>)

  /** `submit_transaction`. */
  function SubmitTransaction(c: Crypto, n: Node, tx: Transaction): (s: Submission)
    requires Numbered(n.blocks)
    ensures s.node == n.(pool := s.node.pool)
  {
    var a := Offer(c, n.pool, tx, TipPrice(c, n, tx));
    Submission(n.(pool := a.pool), a.result)
  }

  // ---------- the rules, as the block tree sees them ----------

  ghost function RulesOf(c: Crypto, magic: U32, g: Block): Rules {
    Rules(KeyOf(c), LawfulStep(c, magic), (b: Block) => BlockWork(b.header.bits),
          (chain: seq<Block>) => Replay(c, chain).Some?, g)
  }

  lemma LawfulReplays(c: Crypto, magic: U32, chain: seq<Block>, b: Block)
    requires Lawful(c, magic, chain, b)
    ensures Replay(c, chain).Some?
  {
  }

  lemma RulesAreSound(c: Crypto, magic: U32, g: Block)
    requires IsGenesis(c, g)
    ensures Sound(RulesOf(c, magic, g))
  {
    var r := RulesOf(c, magic, g);
    GenesisReplays(c, g);
    forall chain, b | r.allowed(chain, b) ensures Extends(r, chain, b) && b.header.bits == NextBits(chain) && Numbered(chain) {
      LawfulHeight(c, magic, chain, b);
      LawfulReplays(c, magic, chain, b);
    }
  }

  lemma GenesisReplays(c: Crypto, g: Block)
    requires IsGenesis(c, g)
    ensures Replay(c, [g]).Some?
  {
    assert [g][..0] == [];
    assert g.transactions[0].outputs[..0] == [];
  }
}
