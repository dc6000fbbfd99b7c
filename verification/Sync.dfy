/** Headers-first synchronisation between two nodes: the block locator, the reply to it, and what the requester
    does with the reply (`block_locator` and the `GetHeaders` and `Headers` cases of src/network/node.rs). */
module Sync {
  import opened Basics
  import opened Transactions
  import opened Timestamps
  import opened Blocks
  import opened BlockTree
  import opened Nodes
  import opened Invariant
  import opened Runs
  import opened Guarantees

  const MAX_LOCATOR_HASHES: nat := 32
  const MAX_HEADERS_PER_RESPONSE: nat := 2_000

  // ---------- the heights a locator names ----------

  function Pow2(k: nat): (r: nat)
    ensures r >= 1
  {
    if k == 0 then 1 else 2 * Pow2(k - 1)
  }

  /** How far below the tip entry `i` lies: one by one at first, then doubling. */
  function Depth(i: nat): nat { if i <= 10 then i else 9 + Pow2(i - 10) }

  /** The step the loop holds when it has pushed `i` entries. */
  function Stride(i: nat): nat { if i <= 10 then 1 else Pow2(i - 10) }

  lemma DepthSteps(i: nat)
    ensures Depth(i + 1) == Depth(i) + Stride(i)
    ensures Stride(i + 1) == if i + 1 > 10 then 2 * Stride(i) else Stride(i)
  {
    if i == 10 { assert Pow2(1) == 2 * Pow2(0); }
  }

  function HeightAt(tip: nat, i: nat): nat { SatSub(tip, Depth(i)) }

  /** The heights the loop pushes from its `i`-th turn on. */
  function HeightsFrom(tip: nat, i: nat): (r: seq<nat>)
    ensures r != []
    decreases MAX_LOCATOR_HASHES - i, tip
  {
    if HeightAt(tip, i) == 0 || i + 1 >= MAX_LOCATOR_HASHES then [HeightAt(tip, i)]
    else [HeightAt(tip, i)] + HeightsFrom(tip, i + 1)
  }

  /** Genesis closes the list if the loop did not reach it. */
  function LocatorHeights(tip: nat): (r: seq<nat>)
    ensures r != []
  {
    var pushed := HeightsFrom(tip, 0);
    if pushed[|pushed| - 1] == 0 then pushed else pushed + [0]
  }

  ghost predicate Descending(s: seq<nat>) { forall i, j | 0 <= i < j < |s| :: s[i] > s[j] }

  lemma {:induction false} HeightsShape(tip: nat, i: nat)
    requires i < MAX_LOCATOR_HASHES
    ensures var r := HeightsFrom(tip, i);
            && r[0] == HeightAt(tip, i) && |r| <= MAX_LOCATOR_HASHES - i && Descending(r)
            && (forall j | 0 <= j < |r| :: r[j] == HeightAt(tip, i + j))
            && (r[|r| - 1] != 0 ==> |r| == MAX_LOCATOR_HASHES - i)
    decreases MAX_LOCATOR_HASHES - i
  {
    var r := HeightsFrom(tip, i);
    if HeightAt(tip, i) != 0 && i + 1 < MAX_LOCATOR_HASHES {
      HeightsShape(tip, i + 1);
      var rest := HeightsFrom(tip, i + 1);
      DepthSteps(i);
      assert r == [HeightAt(tip, i)] + rest;
      forall j | 0 <= j < |r| ensures r[j] == HeightAt(tip, i + j) {
        if j > 0 { assert r[j] == rest[j - 1]; }
      }
      forall j, k | 0 <= j < k < |r| ensures r[j] > r[k] {
        assert r[k] == rest[k - 1];
        if j > 0 { assert r[j] == rest[j - 1]; }
      }
    }
  }

  /** A locator starts at the tip, strictly descends, ends at genesis and has at most 33 entries. */
  lemma LocatorShape(tip: nat)
    ensures var r := LocatorHeights(tip);
            r[0] == tip && r[|r| - 1] == 0 && Descending(r) && |r| <= MAX_LOCATOR_HASHES + 1
  {
    HeightsShape(tip, 0);
  }

  /** The first entry at or below `f`. */
  function ResumeIndex(heights: seq<nat>, f: nat): (k: nat)
    requires heights != [] && heights[|heights| - 1] <= f
    ensures k < |heights| && heights[k] <= f && forall j | 0 <= j < k :: heights[j] > f
  {
    if heights[0] <= f then 0 else 1 + ResumeIndex(heights[1..], f)
  }

  lemma Pow2At21()
    ensures Pow2(21) == 0x20_0000
  {
    assert Pow2(5) == 32;
    assert Pow2(10) == 1024;
    assert Pow2(15) == 32768;
    assert Pow2(20) == 0x10_0000;
  }

  lemma GapArith(tip: nat, f: nat, k: nat)
    requires f <= tip && f < HeightAt(tip, k)
    ensures f - HeightAt(tip, k + 1) <= tip - f
  {
    DepthSteps(k);
  }

  /** Up to height 2^21 + 9, going back to the best locator entry at or below the true fork costs no more headers than
      the requester's own branch is long: the resume point is at most as far below the fork as the tip is above. */
  lemma ResumeIsClose(tip: nat, f: nat)
    requires f <= tip <= 0x20_0000 + 9
    ensures var r := LocatorHeights(tip);
            r[|r| - 1] == 0 && f - r[ResumeIndex(r, f)] <= tip - f
  {
    LocatorShape(tip);
    HeightsShape(tip, 0);
    ReachesGenesis(tip);
    ResumeWithin(LocatorHeights(tip), tip, f);
  }

  lemma ResumeWithin(r: seq<nat>, tip: nat, f: nat)
    requires r != [] && r[|r| - 1] <= f <= tip && forall j | 0 <= j < |r| :: r[j] == HeightAt(tip, j)
    ensures f - r[ResumeIndex(r, f)] <= tip - f
  {
    var k := ResumeIndex(r, f);
    if k > 0 {
      assert r[k - 1] == HeightAt(tip, k - 1) && r[k] == HeightAt(tip, k);
      GapArith(tip, f, k - 1);
    }
  }

  lemma ReachesGenesis(tip: nat)
    requires tip <= 0x20_0000 + 9
    ensures LocatorHeights(tip) == HeightsFrom(tip, 0)
  {
    HeightsShape(tip, 0);
    Pow2At21();
  }

  // ---------- building the locator ----------

  ghost predicate Below(heights: seq<nat>, bound: nat) { forall i | 0 <= i < |heights| :: heights[i] < bound }

  function HashesAt(key: Block -> Hash, chain: seq<Block>, heights: seq<nat>): (r: seq<Hash>)
    requires Below(heights, |chain|)
    ensures |r| == |heights|
  {
    seq(|heights|, i requires 0 <= i < |heights| => key(chain[heights[i]]))
  }

  lemma LocatorBelow(tip: nat)
    ensures Below(LocatorHeights(tip), tip + 1)
  {
    LocatorShape(tip);
  }

  function Locator(key: Block -> Hash, chain: seq<Block>): seq<Hash>
    requires chain != []
  {
    LocatorBelow(|chain| - 1);
    HashesAt(key, chain, LocatorHeights(|chain| - 1))
  }

  lemma PushOne(tip: nat, heights: seq<nat>, n: nat)
    requires |heights| == n < MAX_LOCATOR_HASHES && HeightsFrom(tip, 0) == heights + HeightsFrom(tip, n)
    ensures var more := heights + [HeightAt(tip, n)];
            if HeightAt(tip, n) == 0 || n + 1 >= MAX_LOCATOR_HASHES then HeightsFrom(tip, 0) == more
            else HeightsFrom(tip, 0) == more + HeightsFrom(tip, n + 1)
  {
    if HeightAt(tip, n) != 0 && n + 1 < MAX_LOCATOR_HASHES {
      var rest := HeightsFrom(tip, n + 1);
      assert heights + ([HeightAt(tip, n)] + rest) == heights + [HeightAt(tip, n)] + rest;
    }
  }

  /** The loop of `block_locator`: push, stop at genesis or at 32 entries, step back, double the step after ten. */
  method PushHashes(key: Block -> Hash, chain: seq<Block>) returns (locator: seq<Hash>)
    requires chain != []
    ensures Below(HeightsFrom(|chain| - 1, 0), |chain|) && locator == HashesAt(key, chain, HeightsFrom(|chain| - 1, 0))
  {
    var tip := |chain| - 1;
    var height, step := tip, 1;
    ghost var heights: seq<nat> := [];
    locator := [];
    while true
      invariant |locator| == |heights| < MAX_LOCATOR_HASHES && Below(heights, |chain|)
      invariant locator == HashesAt(key, chain, heights)
      invariant height == HeightAt(tip, |heights|) && step == Stride(|heights|)
      invariant HeightsFrom(tip, 0) == heights + HeightsFrom(tip, |heights|)
      decreases MAX_LOCATOR_HASHES - |heights|
    {
      DepthSteps(|heights|);
      PushOne(tip, heights, |heights|);
      locator := locator + [key(chain[height])];
      heights := heights + [height];
      if height == 0 || |locator| >= MAX_LOCATOR_HASHES { return; }
      height := SatSub(height, step);
      if |locator| > 10 { step := step * 2; }
    }
  }

  /** `block_locator`: genesis is added unless the loop ended on it. */
  method BlockLocator(key: Block -> Hash, chain: seq<Block>) returns (locator: seq<Hash>)
    requires chain != [] && forall i | 1 <= i < |chain| :: key(chain[i]) != key(chain[0])
    ensures locator == Locator(key, chain)
  {
    locator := PushHashes(key, chain);
    LocatorBelow(|chain| - 1);
    if locator[|locator| - 1] != key(chain[0]) {
      locator := locator + [key(chain[0])];
    }
  }

  // ---------- the reply ----------

  /** The first locator hash on the responder's active chain decides where the reply starts. */
  function StartAfter(index: map<Hash, nat>, locator: seq<Hash>): nat {
    if locator == [] then 0
    else if locator[0] in index then index[locator[0]] + 1
    else StartAfter(index, locator[1..])
  }

  /** The `GetHeaders` case: up to 2,000 headers from there on. */
  function Reply(blocks: seq<Block>, index: map<Hash, nat>, locator: seq<Hash>): seq<Header> {
    var start := Min(StartAfter(index, locator), |blocks|);
    HeadersOf(blocks[start..Min(start + MAX_HEADERS_PER_RESPONSE, |blocks|)])
  }

  function HeadersOf(blocks: seq<Block>): (r: seq<Header>)
    ensures |r| == |blocks|
  {
    seq(|blocks|, i requires 0 <= i < |blocks| => blocks[i].header)
  }

  /** Blocks of the two active chains with the same hash are the same block. */
  ghost predicate SharedHashes(key: Block -> Hash, a: seq<Block>, b: seq<Block>) {
    forall i, j | 0 <= i < |a| && 0 <= j < |b| && key(a[i]) == key(b[j]) :: a[i] == b[j]
  }

  /** `f` is the height at which the two chains part. */
  ghost predicate ForkAt(a: seq<Block>, b: seq<Block>, f: nat) {
    f < |a| && f < |b| && a[..f + 1] == b[..f + 1] && forall i | f < i < |a| && i < |b| :: a[i] != b[i]
  }

  /** A hash of the requester's chain is on the responder's chain exactly up to the fork, at the same height. */
  lemma OnBothChains(key: Block -> Hash, a: seq<Block>, b: seq<Block>, index: map<Hash, nat>, f: nat, h: nat)
    requires Numbered(a) && Numbered(b) && Inverts(key, b, index) && SharedHashes(key, a, b) && ForkAt(a, b, f) && h < |a|
    ensures key(a[h]) in index <==> h <= f
    ensures h <= f ==> index[key(a[h])] == h
  {
    if h <= f {
      assert a[h] == a[..f + 1][h] == b[..f + 1][h] == b[h];
    }
  }

  lemma {:induction false} StartsAtResume(key: Block -> Hash, a: seq<Block>, b: seq<Block>, index: map<Hash, nat>,
          f: nat, heights: seq<nat>)
    requires Numbered(a) && Numbered(b) && Inverts(key, b, index) && SharedHashes(key, a, b) && ForkAt(a, b, f)
    requires heights != [] && Below(heights, |a|) && heights[|heights| - 1] == 0
    ensures StartAfter(index, HashesAt(key, a, heights)) == heights[ResumeIndex(heights, f)] + 1
  {
    var locator := HashesAt(key, a, heights);
    OnBothChains(key, a, b, index, f, heights[0]);
    assert locator[0] == key(a[heights[0]]);
    if heights[0] > f {
      assert locator[1..] == HashesAt(key, a, heights[1..]);
      StartsAtResume(key, a, b, index, f, heights[1..]);
    }
  }

  lemma LocatorFacts(key: Block -> Hash, a: seq<Block>) returns (heights: seq<nat>)
    requires a != []
    ensures heights == LocatorHeights(|a| - 1) && heights != [] && heights[|heights| - 1] == 0 && Below(heights, |a|)
    ensures Locator(key, a) == HashesAt(key, a, heights)
  {
    heights := LocatorHeights(|a| - 1);
    LocatorShape(|a| - 1);
    LocatorBelow(|a| - 1);
  }

  /** The reply starts right after the highest locator entry on both chains. */
  lemma ReplyResumes(key: Block -> Hash, a: seq<Block>, b: seq<Block>, index: map<Hash, nat>, f: nat)
    requires Numbered(a) && Numbered(b) && Inverts(key, b, index) && SharedHashes(key, a, b) && ForkAt(a, b, f)
    ensures var heights := LocatorHeights(|a| - 1);
            && heights[|heights| - 1] == 0
            && StartAfter(index, Locator(key, a)) == heights[ResumeIndex(heights, f)] + 1
            && heights[ResumeIndex(heights, f)] <= f
  {
    var heights := LocatorFacts(key, a);
    StartsAtResume(key, a, b, index, f, heights);
  }

  // ---------- what the requester does with the reply ----------

  /** How many headers were accepted, and which blocks are requested. */
  datatype Fetch = Fetch(accepted: nat, wanted: seq<Hash>)

  function Joined(done: Fetch, rest: Fetch): Fetch { Fetch(done.accepted + rest.accepted, done.wanted + rest.wanted) }

  predicate Continues(known: set<Hash>, prev: Option<Hash>, h: Header) {
    if prev.Some? then h.prevHash == prev.value else h.prevHash in known
  }

  /** One header accepted. */
  function One(hash: Header -> Hash, known: set<Hash>, h: Header): Fetch {
    Fetch(1, if hash(h) in known then [] else [hash(h)])
  }

  /** The `Headers` case: accept headers while each continues the one before (the first must continue a known block)
      and carries its proof of work; request the unknown ones. */
  function Handle(hash: Header -> Hash, solved: Header -> bool, known: set<Hash>, headers: seq<Header>,
          prev: Option<Hash>): Fetch {
    if headers == [] || !Continues(known, prev, headers[0]) || !solved(headers[0]) then NOTHING
    else Joined(One(hash, known, headers[0]), Handle(hash, solved, known, headers[1..], Some(hash(headers[0]))))
  }

  const NOTHING := Fetch(0, [])

  lemma JoinedUnits(x: Fetch)
    ensures Joined(NOTHING, x) == x && Joined(x, NOTHING) == x
  {
  }

  lemma JoinedAssociates(done: Fetch, one: Fetch, rest: Fetch)
    ensures Joined(done, Joined(one, rest)) == Joined(Joined(done, one), rest)
  {
    assert done.wanted + (one.wanted + rest.wanted) == done.wanted + one.wanted + rest.wanted;
  }

  function Accept(hash: Header -> Hash, known: set<Hash>, done: Fetch, h: Header): Fetch {
    Fetch(done.accepted + 1, if hash(h) in known then done.wanted else done.wanted + [hash(h)])
  }

  lemma AcceptJoins(hash: Header -> Hash, known: set<Hash>, done: Fetch, h: Header)
    ensures Accept(hash, known, done, h) == Joined(done, One(hash, known, h))
  {
  }

  lemma AcceptOne(hash: Header -> Hash, solved: Header -> bool, known: set<Hash>, headers: seq<Header>, i: nat,
          prev: Option<Hash>, done: Fetch)
    requires i < |headers| && Continues(known, prev, headers[i]) && solved(headers[i])
    ensures Joined(done, Handle(hash, solved, known, headers[i..], prev))
            == Joined(Accept(hash, known, done, headers[i]),
                      Handle(hash, solved, known, headers[i + 1..], Some(hash(headers[i]))))
  {
    var rest := Handle(hash, solved, known, headers[i + 1..], Some(hash(headers[i])));
    assert headers[i..][0] == headers[i] && headers[i..][1..] == headers[i + 1..];
    assert Handle(hash, solved, known, headers[i..], prev) == Joined(One(hash, known, headers[i]), rest);
    JoinedAssociates(done, One(hash, known, headers[i]), rest);
    AcceptJoins(hash, known, done, headers[i]);
  }

  lemma StopHere(hash: Header -> Hash, solved: Header -> bool, known: set<Hash>, headers: seq<Header>, i: nat,
          prev: Option<Hash>, done: Fetch)
    requires i <= |headers| && (i < |headers| ==> !Continues(known, prev, headers[i]) || !solved(headers[i]))
    ensures Joined(done, Handle(hash, solved, known, headers[i..], prev)) == done
  {
    JoinedUnits(done);
  }

  /** The loop over the headers, which stops at the first that does not fit. */
  method HandleHeaders(hash: Header -> Hash, solved: Header -> bool, known: set<Hash>,
          headers: seq<Header>) returns (r: Fetch)
    ensures r == Handle(hash, solved, known, headers, None)
  {
    var prev: Option<Hash> := None;
    r := NOTHING;
    var i := 0;
    JoinedUnits(Handle(hash, solved, known, headers, None));
    assert headers[0..] == headers;
    while i < |headers|
      invariant i <= |headers|
      invariant Joined(r, Handle(hash, solved, known, headers[i..], prev)) == Handle(hash, solved, known, headers, None)
    {
      var h := headers[i];
      if !Continues(known, prev, h) || !solved(h) { break; }
      AcceptOne(hash, solved, known, headers, i, prev, r);
      r := Accept(hash, known, r, h);
      prev := Some(hash(h));
      i := i + 1;
    }
    StopHere(hash, solved, known, headers, i, prev, r);
  }

  function Unknown(hash: Header -> Hash, known: set<Hash>, headers: seq<Header>): seq<Hash> {
    if headers == [] then []
    else (if hash(headers[0]) in known then [] else [hash(headers[0])]) + Unknown(hash, known, headers[1..])
  }

  ghost predicate Linked(hash: Header -> Hash, solved: Header -> bool, headers: seq<Header>) {
    && (forall i | 0 <= i < |headers| :: solved(headers[i]))
    && (forall i | 1 <= i < |headers| :: headers[i].prevHash == hash(headers[i - 1]))
  }

  /** A linked reply that continues a known block is accepted whole, and exactly its unknown blocks are requested, in
      their order. */
  lemma {:induction false} AcceptsAll(hash: Header -> Hash, solved: Header -> bool, known: set<Hash>,
          headers: seq<Header>, prev: Option<Hash>)
    requires Linked(hash, solved, headers)
    requires headers != [] ==> if prev.Some? then headers[0].prevHash == prev.value else headers[0].prevHash in known
    ensures Handle(hash, solved, known, headers, prev) == Fetch(|headers|, Unknown(hash, known, headers))
  {
    if headers != [] {
      AcceptsAll(hash, solved, known, headers[1..], Some(hash(headers[0])));
    }
  }

  /** Exactly what is requested: the hashes in the reply that the requester lacks. */
  lemma {:induction false} UnknownExactly(hash: Header -> Hash, known: set<Hash>, headers: seq<Header>, x: Hash)
    ensures x in Unknown(hash, known, headers) <==> x !in known && exists i | 0 <= i < |headers| :: hash(headers[i]) == x
  {
    if headers != [] {
      UnknownExactly(hash, known, headers[1..], x);
      var head, rest := if hash(headers[0]) in known then [] else [hash(headers[0])], Unknown(hash, known, headers[1..]);
      assert x in head + rest <==> x in head || x in rest;
      if i :| 0 <= i < |headers| && hash(headers[i]) == x {
        if i > 0 { assert hash(headers[1..][i - 1]) == x; }
      }
      if j :| 0 <= j < |headers[1..]| && hash(headers[1..][j]) == x { assert hash(headers[j + 1]) == x; }
    }
  }

  /** How many headers are accepted, for any reply whatever: a linked, solved prefix that continues what is known, up to the
      first header that does not continue it or misses its target; the unknown hashes of that prefix are requested. */
  lemma {:induction false} AcceptsLongestPrefix(hash: Header -> Hash, solved: Header -> bool, known: set<Hash>,
          headers: seq<Header>, prev: Option<Hash>)
    ensures var r := Handle(hash, solved, known, headers, prev);
            && r.accepted <= |headers| && Linked(hash, solved, headers[..r.accepted])
            && (r.accepted > 0 ==> Continues(known, prev, headers[0]))
            && r.wanted == Unknown(hash, known, headers[..r.accepted])
            && (r.accepted < |headers| ==>
                  !solved(headers[r.accepted])
                  || !Continues(known, if r.accepted == 0 then prev else Some(hash(headers[r.accepted - 1])), headers[r.accepted]))
  {
    if headers != [] && Continues(known, prev, headers[0]) && solved(headers[0]) {
      AcceptsLongestPrefix(hash, solved, known, headers[1..], Some(hash(headers[0])));
      PrefixGrows(hash, solved, known, headers, Handle(hash, solved, known, headers[1..], Some(hash(headers[0]))));
    }
  }

  lemma PrefixGrows(hash: Header -> Hash, solved: Header -> bool, known: set<Hash>, headers: seq<Header>, rest: Fetch)
    requires headers != [] && rest.accepted <= |headers| - 1 && solved(headers[0]) && Linked(hash, solved, headers[1..][..rest.accepted])
    requires rest.accepted > 0 ==> headers[1].prevHash == hash(headers[0])
    requires rest.wanted == Unknown(hash, known, headers[1..][..rest.accepted])
    ensures var r := Joined(One(hash, known, headers[0]), rest);
            && r.accepted == 1 + rest.accepted && Linked(hash, solved, headers[..r.accepted])
            && r.wanted == Unknown(hash, known, headers[..r.accepted])
  {
    var part, tail := headers[..1 + rest.accepted], headers[1..][..rest.accepted];
    assert part[1..] == tail && part[0] == headers[0];
    forall i | 0 <= i < |part| ensures solved(part[i]) { if i > 0 { assert part[i] == tail[i - 1]; } }
    forall i | 1 <= i < |part| ensures part[i].prevHash == hash(part[i - 1]) {
      if i > 1 { assert part[i] == tail[i - 1] && part[i - 1] == tail[i - 2]; }
    }
  }

  // ---------- the exchange ----------

  function HashOf(c: Crypto): Header -> Hash { (h: Header) => HeaderHash(c, h) }

  function SolvedBy(c: Crypto): Header -> bool { (h: Header) => MeetsTarget(c, h) }

  lemma LawfulLink(c: Crypto, magic: U32, chain: seq<Block>, i: nat)
    requires LawfulChain(c, magic, chain) && 1 <= i < |chain|
    ensures SolvedBy(c)(chain[i].header) && chain[i].header.prevHash == HashOf(c)(chain[i - 1].header)
  {
    LawfulAt(c, magic, chain, i);
    LawfulHeight(c, magic, chain[..i], chain[i]);
    LawfulIsSolved(c, magic, chain[..i], chain[i]);
  }

  lemma LawfulIsSolved(c: Crypto, magic: U32, chain: seq<Block>, b: Block)
    requires Lawful(c, magic, chain, b)
    ensures MeetsTarget(c, b.header)
  {
  }

  ghost predicate ChainLinked(hash: Header -> Hash, solved: Header -> bool, chain: seq<Block>) {
    forall i | 1 <= i < |chain| :: solved(chain[i].header) && chain[i].header.prevHash == hash(chain[i - 1].header)
  }

  lemma LawfulIsLinked(c: Crypto, magic: U32, chain: seq<Block>)
    requires LawfulChain(c, magic, chain)
    ensures ChainLinked(HashOf(c), SolvedBy(c), chain)
  {
    forall i | 1 <= i < |chain| ensures SolvedBy(c)(chain[i].header) && chain[i].header.prevHash == HashOf(c)(chain[i - 1].header) {
      LawfulLink(c, magic, chain, i);
    }
  }

  lemma SliceIsLinked(hash: Header -> Hash, solved: Header -> bool, chain: seq<Block>, from: nat, to: nat)
    requires ChainLinked(hash, solved, chain) && 1 <= from <= to <= |chain|
    ensures Linked(hash, solved, HeadersOf(chain[from..to]))
    ensures from < to ==> HeadersOf(chain[from..to])[0].prevHash == hash(chain[from - 1].header)
  {
    var headers := HeadersOf(chain[from..to]);
    forall i | 0 <= i < |headers| ensures solved(headers[i]) && headers[i].prevHash == hash(chain[from + i - 1].header) {
      assert headers[i] == chain[from + i].header;
    }
    forall i | 1 <= i < |headers| ensures headers[i].prevHash == hash(headers[i - 1]) {
      assert headers[i - 1] == chain[from + i - 1].header;
    }
  }

  lemma ReplyContinues(c: Crypto, b: seq<Block>, index: map<Hash, nat>, locator: seq<Hash>)
    requires ChainLinked(HashOf(c), SolvedBy(c), b) && 1 <= StartAfter(index, locator) <= |b|
    ensures var reply := Reply(b, index, locator);
            && Linked(HashOf(c), SolvedBy(c), reply)
            && (reply != [] ==> reply[0].prevHash == KeyOf(c)(b[StartAfter(index, locator) - 1]))
  {
    var start := StartAfter(index, locator);
    SliceIsLinked(HashOf(c), SolvedBy(c), b, start, Min(start + MAX_HEADERS_PER_RESPONSE, |b|));
  }

  /** The reply is the responder's own chain from the starting height on: 2,000 headers, or all that are left. */
  lemma ReplyExactly(b: seq<Block>, index: map<Hash, nat>, locator: seq<Hash>)
    requires StartAfter(index, locator) <= |b|
    ensures Continuation(b, StartAfter(index, locator), Reply(b, index, locator))
  {
  }

  lemma SharedBelowFork(a: seq<Block>, b: seq<Block>, f: nat, i: nat)
    requires ForkAt(a, b, f) && i <= f
    ensures a[i] == b[i]
  {
    assert a[..f + 1][i] == b[..f + 1][i];
  }

  /** Headers-first exchange. Two nodes on one genesis with active chains `a` and `b` that part at height `f`: the reply
      to `a`'s locator starts at most right above the fork, every header of it is accepted, and exactly the
      blocks the requester lacks are requested, in order. */
  lemma Exchange(c: Crypto, magic: U32, a: seq<Block>, b: seq<Block>, index: map<Hash, nat>, known: set<Hash>, f: nat)
    requires LawfulChain(c, magic, a) && LawfulChain(c, magic, b) && Inverts(KeyOf(c), b, index)
    requires SharedHashes(KeyOf(c), a, b) && ForkAt(a, b, f) && forall i | 0 <= i < |a| :: KeyOf(c)(a[i]) in known
    ensures var reply := Reply(b, index, Locator(KeyOf(c), a));
            Handle(HashOf(c), SolvedBy(c), known, reply, None) == Fetch(|reply|, Unknown(HashOf(c), known, reply))
  {
    LawfulNumbered(c, magic, a);
    LawfulNumbered(c, magic, b);
    ReplyResumes(KeyOf(c), a, b, index, f);
    LawfulIsLinked(c, magic, b);
    var locator := Locator(KeyOf(c), a);
    ReplyContinues(c, b, index, locator);
    SharedBelowFork(a, b, f, StartAfter(index, locator) - 1);
    AcceptsAll(HashOf(c), SolvedBy(c), known, Reply(b, index, locator), None);
  }

  // ---------- two chains on one genesis ----------

  lemma MedianOfOne(t: nat)
    ensures PastMedian([t]) == t
  {
    assert Recent([t]) == [t];
    assert [t][1..] == [];
  }

  /** What two chains on one genesis need so that a shared hash means a shared branch: equal hashes have equal predecessors,
      a hash names one block above a given branch, and genesis' hash does not come again. */
  ghost predicate Siblings(key: Block -> Hash, a: seq<Block>, b: seq<Block>) {
    && a != [] && b != [] && a[0] == b[0] && RootIsUnique(key, a) && RootIsUnique(key, b)
    && StepsBack(key, a, b) && OnePerBranch(key, a, b)
  }

  ghost predicate RootIsUnique(key: Block -> Hash, a: seq<Block>) {
    forall j | 1 <= j < |a| :: key(a[j]) != key(a[0])
  }

  ghost predicate StepsBack(key: Block -> Hash, a: seq<Block>, b: seq<Block>) {
    forall i, j | 1 <= i < |a| && 1 <= j < |b| && key(a[i]) == key(b[j]) :: key(a[i - 1]) == key(b[j - 1])
  }

  ghost predicate OnePerBranch(key: Block -> Hash, a: seq<Block>, b: seq<Block>) {
    forall i | 1 <= i < |a| && i < |b| && a[..i] == b[..i] && key(a[i]) == key(b[i]) :: a[i] == b[i]
  }

  /** A hash shared by two such chains stands at one height, above one common branch. */
  lemma {:induction false} SharedHashSharesBranch(key: Block -> Hash, a: seq<Block>, b: seq<Block>, i: nat, j: nat)
    requires Siblings(key, a, b) && i < |a| && j < |b| && key(a[i]) == key(b[j])
    ensures i == j && a[..i + 1] == b[..j + 1]
    decreases i
  {
    if i > 0 && j > 0 {
      SharedHashSharesBranch(key, a, b, i - 1, j - 1);
      assert a[i] == b[i];
      OneMoreShared(a, b, i);
    } else {
      assert i == j;
      OneMoreShared(a, b, 0);
    }
  }

  lemma OneMoreShared(a: seq<Block>, b: seq<Block>, i: nat)
    requires i < |a| && i < |b| && a[..i] == b[..i] && a[i] == b[i]
    ensures a[..i + 1] == b[..i + 1]
  {
    assert a[..i + 1] == a[..i] + [a[i]] && b[..i + 1] == b[..i] + [b[i]];
  }

  lemma HashesAreShared(key: Block -> Hash, a: seq<Block>, b: seq<Block>)
    requires Siblings(key, a, b)
    ensures SharedHashes(key, a, b)
  {
    forall i, j | 0 <= i < |a| && 0 <= j < |b| && key(a[i]) == key(b[j]) ensures a[i] == b[j] {
      SharedHashSharesBranch(key, a, b, i, j);
      assert a[i] == a[..i + 1][i] && b[j] == b[..j + 1][j];
    }
  }

  /** They part at one height. */
  lemma FindFork(key: Block -> Hash, a: seq<Block>, b: seq<Block>) returns (f: nat)
    requires Siblings(key, a, b)
    ensures ForkAt(a, b, f)
  {
    f := 0;
    assert a[..1] == [a[0]] && b[..1] == [b[0]];
    while f + 1 < |a| && f + 1 < |b| && a[f + 1] == b[f + 1]
      invariant f < |a| && f < |b| && a[..f + 1] == b[..f + 1]
    {
      OneMoreShared(a, b, f + 1);
      f := f + 1;
    }
    forall i | f < i < |a| && i < |b| ensures a[i] != b[i] { StaysApart(key, a, b, f + 1, i); }
  }

  lemma StaysApart(key: Block -> Hash, a: seq<Block>, b: seq<Block>, k: nat, i: nat)
    requires Siblings(key, a, b) && k <= i < |a| && i < |b| && a[k] != b[k]
    ensures a[i] != b[i]
  {
    assert a[..i + 1][k] == a[k] && b[..i + 1][k] == b[k];
    if a[i] == b[i] {
      SharedHashSharesBranch(key, a, b, i, i);
    }
  }

  // ---------- lawful chains are such chains ----------

  lemma LaterThanGenesis(c: Crypto, magic: U32, chain: seq<Block>, j: nat)
    requires LawfulChain(c, magic, chain) && 1 <= j < |chain|
    ensures chain[j].header.timestamp > chain[0].header.timestamp
  {
    LawfulAt(c, magic, chain, j);
    LawfulHeight(c, magic, chain[..j], chain[j]);
    BranchPastMedian(c, magic, chain, 1, j);
    assert TimestampsOf(chain[..1]) == [chain[0].header.timestamp];
    MedianOfOne(chain[0].header.timestamp);
  }

  lemma GenesisHashIsFirst(c: Crypto, magic: U32, s: set<Block>, chain: seq<Block>, j: nat)
    requires LawfulChain(c, magic, chain) && CollisionFreeOn(c, Canonicals(c, s)) && 1 <= j < |chain|
    requires chain[0] in s && chain[j] in s
    ensures BlockHash(c, chain[j]) != BlockHash(c, chain[0])
  {
    LaterThanGenesis(c, magic, chain, j);
    CanonicalAt(c, magic, chain, j);
    GenesisIsCanonical(c, chain[0]);
    if BlockHash(c, chain[j]) == BlockHash(c, chain[0]) {
      SameHeader(c, Canonicals(c, s), chain[j], chain[0]);
    }
  }

  lemma CanonicalAt(c: Crypto, magic: U32, chain: seq<Block>, j: nat)
    requires LawfulChain(c, magic, chain) && 1 <= j < |chain|
    ensures Canonical(c, chain[j])
  {
    LawfulAt(c, magic, chain, j);
    LawfulIsCanonical(c, magic, chain[..j], chain[j]);
  }

  lemma PreviousTwins(c: Crypto, magic: U32, s: set<Block>, a: seq<Block>, b: seq<Block>, i: nat, j: nat)
    requires LawfulChain(c, magic, a) && LawfulChain(c, magic, b) && NoCollisions(c, s)
    requires 1 <= i < |a| && 1 <= j < |b| && a[i] in s && b[j] in s && BlockHash(c, a[i]) == BlockHash(c, b[j])
    ensures a[i].header == b[j].header && BlockHash(c, a[i - 1]) == BlockHash(c, b[j - 1])
  {
    LawfulAt(c, magic, a, i);
    LawfulAt(c, magic, b, j);
    LawfulSameHeader(c, magic, s, a[..i], a[i], b[..j], b[j]);
    LawfulHeight(c, magic, a[..i], a[i]);
    LawfulHeight(c, magic, b[..j], b[j]);
  }

  lemma TwinsOnOneBranch(c: Crypto, magic: U32, s: set<Block>, branch: seq<Block>, x: Block, y: Block)
    requires Lawful(c, magic, branch, x) && Lawful(c, magic, branch, y) && NoCollisions(c, s) && x in s && y in s
    requires BlockHash(c, x) == BlockHash(c, y)
    ensures x == y
  {
    LawfulSameHeader(c, magic, s, branch, x, branch, y);
    SameTransactions(c, magic, s, branch, x, y);
  }

  ghost predicate AllIn(chain: seq<Block>, s: set<Block>) { forall i | 0 <= i < |chain| :: chain[i] in s }

  lemma LawfulOnePerBranch(c: Crypto, magic: U32, s: set<Block>, a: seq<Block>, b: seq<Block>)
    requires LawfulChain(c, magic, a) && LawfulChain(c, magic, b) && NoCollisions(c, s) && AllIn(a, s) && AllIn(b, s)
    ensures OnePerBranch(KeyOf(c), a, b)
  {
    forall i | 1 <= i < |a| && i < |b| && a[..i] == b[..i] && KeyOf(c)(a[i]) == KeyOf(c)(b[i]) ensures a[i] == b[i] {
      LawfulAt(c, magic, a, i);
      LawfulAt(c, magic, b, i);
      TwinsOnOneBranch(c, magic, s, a[..i], a[i], b[i]);
    }
  }

  lemma LawfulStepsBack(c: Crypto, magic: U32, s: set<Block>, a: seq<Block>, b: seq<Block>)
    requires LawfulChain(c, magic, a) && LawfulChain(c, magic, b) && NoCollisions(c, s) && AllIn(a, s) && AllIn(b, s)
    ensures StepsBack(KeyOf(c), a, b)
  {
    forall i, j | 1 <= i < |a| && 1 <= j < |b| && KeyOf(c)(a[i]) == KeyOf(c)(b[j])
      ensures KeyOf(c)(a[i - 1]) == KeyOf(c)(b[j - 1])
    {
      PreviousTwins(c, magic, s, a, b, i, j);
    }
  }

  lemma LawfulRootIsUnique(c: Crypto, magic: U32, s: set<Block>, a: seq<Block>)
    requires LawfulChain(c, magic, a) && NoCollisions(c, s) && AllIn(a, s)
    ensures RootIsUnique(KeyOf(c), a)
  {
    forall j | 1 <= j < |a| ensures KeyOf(c)(a[j]) != KeyOf(c)(a[0]) { GenesisHashIsFirst(c, magic, s, a, j); }
  }

  /** Two lawful chains on one genesis, with no collision among their blocks, are siblings. */
  lemma LawfulSiblings(c: Crypto, magic: U32, s: set<Block>, a: seq<Block>, b: seq<Block>)
    requires LawfulChain(c, magic, a) && LawfulChain(c, magic, b) && a[0] == b[0]
    requires NoCollisions(c, s) && AllIn(a, s) && AllIn(b, s)
    ensures Siblings(KeyOf(c), a, b)
  {
    LawfulRootIsUnique(c, magic, s, a);
    LawfulRootIsUnique(c, magic, s, b);
    LawfulStepsBack(c, magic, s, a, b);
    LawfulOnePerBranch(c, magic, s, a, b);
  }

  // ---------- between any two nodes ----------

  lemma ActiveIsKnown(c: Crypto, g: Block, n: Node, hist: map<Hash, Block>, i: nat)
    requires Inv(c, g, n, hist) && i < |n.blocks|
    ensures KeyOf(c)(n.blocks[i]) in n.all
  {
    assert RulesOf(c, n.magic, g).key(n.blocks[i]) in n.all;
  }

  lemma ExchangeHere(c: Crypto, g: Block, n: Node, histN: map<Hash, Block>, m: Node, histM: map<Hash, Block>, f: nat)
    requires Inv(c, g, n, histN) && Inv(c, g, m, histM) && n.magic == m.magic
    requires SharedHashes(KeyOf(c), n.blocks, m.blocks) && ForkAt(n.blocks, m.blocks, f)
    ensures var reply := Reply(m.blocks, m.index, Locator(KeyOf(c), n.blocks));
            Handle(HashOf(c), SolvedBy(c), n.all.Keys, reply, None) == Fetch(|reply|, Unknown(HashOf(c), n.all.Keys, reply))
  {
    ActiveIsLawful(c, g, n, histN);
    ActiveIsLawful(c, g, m, histM);
    InvIndexInverts(c, g, m, histM);
    forall i | 0 <= i < |n.blocks| ensures KeyOf(c)(n.blocks[i]) in n.all.Keys {
      ActiveIsKnown(c, g, n, histN, i);
    }
    Exchange(c, n.magic, n.blocks, m.blocks, m.index, n.all.Keys, f);
  }

  lemma CloseAt(tip: nat, f: nat, heights: seq<nat>, k: nat)
    requires heights == LocatorHeights(tip) && k < |heights| && heights[k] <= f <= tip
    requires forall j | 0 <= j < k :: heights[j] > f
    ensures tip <= 0x20_0000 + 9 ==> f - heights[k] <= tip - f
  {
    if tip <= 0x20_0000 + 9 {
      ResumeIsClose(tip, f);
      assert ResumeIndex(heights, f) == k;
    }
  }

  lemma ResumeClose(key: Block -> Hash, a: seq<Block>, b: seq<Block>, index: map<Hash, nat>, f: nat, start: nat)
    requires Numbered(a) && Numbered(b) && Inverts(key, b, index) && SharedHashes(key, a, b) && ForkAt(a, b, f)
    requires start == StartAfter(index, Locator(key, a))
    ensures Resumes(|a| - 1, f, start)
  {
    var heights, k := ResumesAt(key, a, b, index, f);
    CloseAt(|a| - 1, f, heights, k);
  }

  lemma ResumesAt(key: Block -> Hash, a: seq<Block>, b: seq<Block>, index: map<Hash, nat>, f: nat)
    returns (heights: seq<nat>, k: nat)
    requires Numbered(a) && Numbered(b) && Inverts(key, b, index) && SharedHashes(key, a, b) && ForkAt(a, b, f)
    ensures heights == LocatorHeights(|a| - 1) && k < |heights| && heights[k] <= f && forall j | 0 <= j < k :: heights[j] > f
    ensures StartAfter(index, Locator(key, a)) == heights[k] + 1
  {
    ReplyResumes(key, a, b, index, f);
    heights := LocatorHeights(|a| - 1);
    k := ResumeIndex(heights, f);
  }

  lemma ActiveIsSeen(c: Crypto, g: Block, n: Node, hist: map<Hash, Block>, s: set<Block>)
    requires Inv(c, g, n, hist) && hist.Values <= s
    ensures LawfulChain(c, n.magic, n.blocks) && n.blocks[0] == g && AllIn(n.blocks, s)
  {
    var r := RulesOf(c, n.magic, g);
    ActiveIsLawful(c, g, n, hist);
    BranchOf(r, hist, r.key(n.blocks[|n.blocks| - 1]));
    forall i | 0 <= i < |n.blocks| ensures n.blocks[i] in s { ActiveIsStored(r, n.Forest(), hist, n.blocks[i]); }
  }

  lemma RunIsSeen(c: Crypto, magic: U32, g: Block, events: seq<Event>, s: set<Block>)
    requires IsGenesis(c, g) && NoCollisions(c, s) && Seen(g, events) <= s
    ensures var n := Run(c, magic, g, events);
            && Inv(c, g, n, Hist(c, magic, g, events))
            && LawfulChain(c, magic, n.blocks) && n.blocks[0] == g && AllIn(n.blocks, s)
  {
    AllSeen(g, events);
    ReachableWithin(c, magic, g, events, s);
    ActiveIsSeen(c, g, Run(c, magic, g, events), Hist(c, magic, g, events), s);
  }

  /** The start is at or below the block above the fork, and not further below the fork than the tip is above it. */
  predicate Resumes(tip: nat, f: nat, start: nat) {
    1 <= start <= f + 1 && (tip <= 0x20_0000 + 9 ==> f - (start - 1) <= tip - f)
  }

  /** The next 2,000 headers of a chain from `start` on, or all that are left. */
  predicate Continuation(blocks: seq<Block>, start: nat, reply: seq<Header>) {
    && start <= |blocks| && |reply| == Min(2_000, |blocks| - start)
    && forall k | 0 <= k < |reply| :: reply[k] == blocks[start + k].header
  }

  /** What a round of headers brings node `a` from node `b`, when their active chains part at height `f`. The reply to `a`'s
      locator starts at or below the block above `f`, at most as far below `f` as `a`'s tip is above it (up to
      height 2^21 + 9); it is the next 2,000 headers of `b`'s chain, or all that are left; every one is
      accepted, and exactly the blocks that `a` lacks are requested, in order. */
  ghost predicate Exchanged(c: Crypto, a: Node, b: Node, f: nat)
    requires a.blocks != []
  {
    var start, tip := StartAfter(b.index, Locator(KeyOf(c), a.blocks)), |a.blocks| - 1;
    var reply := Reply(b.blocks, b.index, Locator(KeyOf(c), a.blocks));
    && ForkAt(a.blocks, b.blocks, f) && Resumes(tip, f, start) && Continuation(b.blocks, start, reply)
    && Handle(HashOf(c), SolvedBy(c), a.all.Keys, reply, None) == Fetch(|reply|, Unknown(HashOf(c), a.all.Keys, reply))
  }

  lemma ExchangedHere(c: Crypto, g: Block, n: Node, histN: map<Hash, Block>, m: Node, histM: map<Hash, Block>, f: nat)
    requires Inv(c, g, n, histN) && Inv(c, g, m, histM) && n.magic == m.magic
    requires SharedHashes(KeyOf(c), n.blocks, m.blocks) && ForkAt(n.blocks, m.blocks, f)
    ensures Exchanged(c, n, m, f)
  {
    ExchangeHere(c, g, n, histN, m, histM, f);
    InvIndexInverts(c, g, m, histM);
    ResumeClose(KeyOf(c), n.blocks, m.blocks, m.index, f, StartAfter(m.index, Locator(KeyOf(c), n.blocks)));
    ReplyExactly(m.blocks, m.index, Locator(KeyOf(c), n.blocks));
  }

  /** Headers-first exchange between any two reachable nodes on one genesis, with no collision among the blocks the two have
      seen. */
  lemma ExchangeInEveryRun(c: Crypto, magic: U32, g: Block, eventsA: seq<Event>, eventsB: seq<Event>) returns (f: nat)
    requires IsGenesis(c, g) && NoCollisions(c, Seen(g, eventsA) + Seen(g, eventsB))
    ensures Exchanged(c, Run(c, magic, g, eventsA), Run(c, magic, g, eventsB), f)
  {
    var s := Seen(g, eventsA) + Seen(g, eventsB);
    var a, b := Run(c, magic, g, eventsA), Run(c, magic, g, eventsB);
    RunIsSeen(c, magic, g, eventsA, s);
    RunIsSeen(c, magic, g, eventsB, s);
    LawfulSiblings(c, magic, s, a.blocks, b.blocks);
    HashesAreShared(KeyOf(c), a.blocks, b.blocks);
    f := FindFork(KeyOf(c), a.blocks, b.blocks);
    ExchangedHere(c, g, a, Hist(c, magic, g, eventsA), b, Hist(c, magic, g, eventsB), f);
  }
}
