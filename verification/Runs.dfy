/** Whole runs of a node from genesis: what holds in every reachable state, and what every step does there. */
module Runs {
  import opened Basics
  import opened Transactions
  import opened Blocks
  import opened BlockTree
  import opened Nodes
  import opened Invariant

  datatype Event = Deliver(block: Block, now: nat) | Submit(tx: Transaction)

  function After(c: Crypto, n: Node, e: Event): (m: Node)
    requires Numbered(n.blocks)
    ensures Numbered(m.blocks) && m.magic == n.magic
  {
    match e
    case Deliver(b, now) => AddBlock(c, n, b, now).node
    case Submit(tx) => SubmitTransaction(c, n, tx).node
  }

  /** The node after these events, started from genesis `g`. */
  function Run(c: Crypto, magic: U32, g: Block, events: seq<Event>): (n: Node)
    requires g.height == 0
    ensures Numbered(n.blocks) && n.magic == magic
  {
    if events == [] then Start(c, magic, g)
    else After(c, Run(c, magic, g, events[..|events| - 1]), events[|events| - 1])
  }

  /** The blocks stored by this run, pruned ones included. */
  ghost function Hist(c: Crypto, magic: U32, g: Block, events: seq<Event>): map<Hash, Block>
    requires g.height == 0
  {
    if events == [] then map[BlockHash(c, g) := g]
    else
      var before, e := events[..|events| - 1], events[|events| - 1];
      HistAfter(c, Run(c, magic, g, before), Hist(c, magic, g, before), e)
  }

  ghost function HistAfter(c: Crypto, n: Node, hist: map<Hash, Block>, e: Event): map<Hash, Block>
    requires Numbered(n.blocks)
  {
    match e
    case Deliver(b, now) => Grow(c, n, hist, b, now)
    case Submit(_) => hist
  }

  ghost function Seen(g: Block, events: seq<Event>): set<Block> {
    {g} + set e | e in events && e.Deliver? :: e.block
  }

  lemma StartCached(c: Crypto, magic: U32, g: Block)
    requires IsGenesis(c, g)
    ensures Cached(c, Start(c, magic, g))
  {
    assert [g][..0] == [];
    ReplayStep(c, [], g);
    GenesisReplays(c, g);
    assert [] + [g] == [g];
  }

  lemma StartHolds(c: Crypto, magic: U32, g: Block)
    requires IsGenesis(c, g)
    ensures Inv(c, g, Start(c, magic, g), map[BlockHash(c, g) := g])
  {
    var r := RulesOf(c, magic, g);
    StartCached(c, magic, g);
    RulesAreSound(c, magic, g);
    SeedConsistent(r);
    assert Start(c, magic, g).Forest() == Seed(r);
  }

  lemma SubmitKeeps(c: Crypto, g: Block, n: Node, hist: map<Hash, Block>, tx: Transaction)
    requires Inv(c, g, n, hist)
    ensures Inv(c, g, SubmitTransaction(c, n, tx).node, hist)
  {
    var m := SubmitTransaction(c, n, tx).node;
    assert m.Forest() == n.Forest() && m.magic == n.magic;
  }

  lemma EventKeeps(c: Crypto, g: Block, n: Node, hist: map<Hash, Block>, e: Event, s: set<Block>)
    requires Inv(c, g, n, hist) && NoCollisions(c, s) && hist.Values <= s && (e.Deliver? ==> e.block in s)
    ensures Inv(c, g, After(c, n, e), HistAfter(c, n, hist, e)) && HistAfter(c, n, hist, e).Values <= s
  {
    match e
    case Deliver(b, now) => DeliveryKeeps(c, g, n, hist, b, now, s);
    case Submit(tx) => SubmitKeeps(c, g, n, hist, tx);
  }

  lemma RunUnfolds(c: Crypto, magic: U32, g: Block, events: seq<Event>, k: nat)
    requires g.height == 0 && k < |events|
    ensures Run(c, magic, g, events[..k + 1]) == After(c, Run(c, magic, g, events[..k]), events[k])
    ensures Hist(c, magic, g, events[..k + 1]) ==
            HistAfter(c, Run(c, magic, g, events[..k]), Hist(c, magic, g, events[..k]), events[k])
  {
    assert events[..k + 1][..k] == events[..k];
  }

  /** The invariant after the first `k` events, with every stored block among those seen. */
  ghost predicate HoldsAt(c: Crypto, magic: U32, g: Block, events: seq<Event>, k: nat, s: set<Block>)
    requires g.height == 0 && k <= |events|
  {
    && Inv(c, g, Run(c, magic, g, events[..k]), Hist(c, magic, g, events[..k]))
    && Hist(c, magic, g, events[..k]).Values <= s
  }

  lemma HoldsFirst(c: Crypto, magic: U32, g: Block, events: seq<Event>, s: set<Block>)
    requires IsGenesis(c, g) && g in s
    ensures HoldsAt(c, magic, g, events, 0, s)
  {
    assert events[..0] == [];
    StartHolds(c, magic, g);
  }

  lemma HoldsAtStart(c: Crypto, magic: U32, g: Block, events: seq<Event>, s: set<Block>)
    requires IsGenesis(c, g) && g in s
    ensures Holds(c, magic, g, events, s)(0)
  {
    HoldsFirst(c, magic, g, events, s);
  }

  lemma HoldsNext(c: Crypto, magic: U32, g: Block, events: seq<Event>, k: nat, s: set<Block>)
    requires g.height == 0 && k < |events| && HoldsAt(c, magic, g, events, k, s)
    requires NoCollisions(c, s) && (events[k].Deliver? ==> events[k].block in s)
    ensures HoldsAt(c, magic, g, events, k + 1, s)
  {
    RunUnfolds(c, magic, g, events, k);
    EventKeeps(c, g, Run(c, magic, g, events[..k]), Hist(c, magic, g, events[..k]), events[k], s);
  }

  ghost predicate SeenAt(e: Event, s: set<Block>) { e.Deliver? ==> e.block in s }

  ghost function Holds(c: Crypto, magic: U32, g: Block, events: seq<Event>, s: set<Block>): nat -> bool
    requires g.height == 0
  {
    (k: nat) => k <= |events| && HoldsAt(c, magic, g, events, k, s)
  }

  ghost function Clear(c: Crypto): set<Block> -> bool { (s: set<Block>) => NoCollisions(c, s) }

  lemma HoldsStep(c: Crypto, magic: U32, g: Block, events: seq<Event>, k: nat, s: set<Block>)
    requires g.height == 0 && k < |events| && Clear(c)(s) && SeenAt(events[k], s)
    requires Holds(c, magic, g, events, s)(k)
    ensures Holds(c, magic, g, events, s)(k + 1)
  {
    HoldsNext(c, magic, g, events, k, s);
  }

  lemma RunKeeps(c: Crypto, magic: U32, g: Block, events: seq<Event>, k: nat, s: set<Block>)
    requires IsGenesis(c, g) && g in s && NoCollisions(c, s) && k <= |events|
    requires forall i | 0 <= i < |events| :: SeenAt(events[i], s)
    ensures Holds(c, magic, g, events, s)(k)
  {
    HoldsAtStart(c, magic, g, events, s);
    HoldsOn(c, magic, g, events, k, s);
    Induct(Holds(c, magic, g, events, s), k);
  }

  lemma HoldsOn(c: Crypto, magic: U32, g: Block, events: seq<Event>, k: nat, s: set<Block>)
    requires g.height == 0 && Clear(c)(s) && k <= |events|
    requires forall i | 0 <= i < |events| :: SeenAt(events[i], s)
    ensures forall j: nat | j < k && Holds(c, magic, g, events, s)(j) :: Holds(c, magic, g, events, s)(j + 1)
  {
    forall j: nat | j < k && Holds(c, magic, g, events, s)(j) ensures Holds(c, magic, g, events, s)(j + 1) {
      HoldsStep(c, magic, g, events, j, s);
    }
  }

  lemma HoldsAfterAll(c: Crypto, magic: U32, g: Block, events: seq<Event>, s: set<Block>)
    requires g.height == 0 && Holds(c, magic, g, events, s)(|events|)
    ensures Inv(c, g, Run(c, magic, g, events), Hist(c, magic, g, events)) && Hist(c, magic, g, events).Values <= s
  {
    assert events[..|events|] == events;
  }

  lemma AllSeen(g: Block, events: seq<Event>)
    ensures forall i | 0 <= i < |events| :: SeenAt(events[i], Seen(g, events))
  {
    forall i | 0 <= i < |events| ensures SeenAt(events[i], Seen(g, events)) { assert events[i] in events; }
  }

  lemma ReachableWithin(c: Crypto, magic: U32, g: Block, events: seq<Event>, s: set<Block>)
    requires IsGenesis(c, g) && g in s && NoCollisions(c, s)
    requires forall i | 0 <= i < |events| :: SeenAt(events[i], s)
    ensures Inv(c, g, Run(c, magic, g, events), Hist(c, magic, g, events))
    ensures Hist(c, magic, g, events).Values <= s
  {
    RunKeeps(c, magic, g, events, |events|, s);
    HoldsAfterAll(c, magic, g, events, s);
  }

  /** The invariant holds in every reachable state. */
  lemma Reachable(c: Crypto, magic: U32, g: Block, events: seq<Event>)
    requires IsGenesis(c, g) && NoCollisions(c, Seen(g, events))
    ensures Inv(c, g, Run(c, magic, g, events), Hist(c, magic, g, events))
  {
    AllSeen(g, events);
    ReachableWithin(c, magic, g, events, Seen(g, events));
  }
}
