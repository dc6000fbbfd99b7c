/** The sliding-window limiter on peer messages (src/security/rate_limit.rs). */
module RateLimits {
  import opened Basics

  type Peer = string

  const MAX_TRACKED_PEERS: nat := 4_096

  /** Acceptance times per peer, and the peers in the order they were first tracked. */
  datatype Limiter = Limiter(windows: map<Peer, seq<nat>>, order: seq<Peer>, max: nat, window: nat)

  datatype Answer = Answer(limiter: Limiter, allowed: bool)

  /** `retain`: the times that have not expired. */
  function Live(times: seq<nat>, now: nat, window: nat): (r: seq<nat>)
    ensures |r| <= |times|
  {
    if times == [] then []
    else
      var rest := Live(times[1..], now, window);
      if SatSub(now, times[0]) < window then [times[0]] + rest else rest
  }

  function Without(order: seq<Peer>, p: Peer): seq<Peer> {
    if order == [] then [] else (if order[0] == p then [] else [order[0]]) + Without(order[1..], p)
  }

  /** The peer that makes room for a newcomer when the table is full. */
  function Evicted(l: Limiter, peer: Peer): Option<Peer> {
    if peer !in l.windows && |l.windows| >= MAX_TRACKED_PEERS && l.order != [] then Some(l.order[0]) else None
  }

  function AfterEviction(l: Limiter, peer: Peer): Limiter {
    match Evicted(l, peer)
    case None => l
    case Some(oldest) => l.(windows := l.windows - {oldest}, order := Without(l.order, oldest))
  }

  function Entered(l: Limiter, peer: Peer): Limiter {
    if peer in l.windows then l else l.(windows := l.windows[peer := []], order := l.order + [peer])
  }

  /** `check` at time `now`. */
  function Checked(l: Limiter, peer: Peer, now: nat): Answer {
    var m := Entered(AfterEviction(l, peer), peer);
    var times := Live(m.windows[peer], now, m.window);
    if |times| >= m.max then Answer(m.(windows := m.windows[peer := times]), false)
    else Answer(m.(windows := m.windows[peer := times + [now]]), true)
  }

  class RateLimiter {
    var windows: map<Peer, seq<nat>>
    var insertionOrder: seq<Peer>
    const maxPerWindow: nat
    const windowDuration: nat

    function View(): Limiter
      reads this
    {
      Limiter(windows, insertionOrder, maxPerWindow, windowDuration)
    }

    constructor (max: nat, window: nat)
      ensures View() == Limiter(map[], [], max, window)
    {
      windows, insertionOrder, maxPerWindow, windowDuration := map[], [], max, window;
    }

    method Check(peer: Peer, now: nat) returns (allowed: bool)
      modifies this
      ensures Answer(View(), allowed) == Checked(old(View()), peer, now)
    {
      if peer !in windows && |windows| >= MAX_TRACKED_PEERS {
        if insertionOrder != [] {
          var oldest := insertionOrder[0];
          windows := windows - {oldest};
          insertionOrder := Without(insertionOrder, oldest);
        }
      }
      if peer !in windows {
        insertionOrder := insertionOrder + [peer];
        windows := windows[peer := []];
      }
      var entries := Live(windows[peer], now, windowDuration);
      allowed := |entries| < maxPerWindow;
      windows := windows[peer := if allowed then entries + [now] else entries];
    }
  }

  // ---------- the table of peers ----------

  ghost predicate NoRepeats(s: seq<Peer>) { forall i, j | 0 <= i < j < |s| :: s[i] != s[j] }

  /** The order lists exactly the tracked peers, each once, and the table is within its cap. */
  ghost predicate Tracked(l: Limiter) {
    NoRepeats(l.order) && (forall p :: p in l.order <==> p in l.windows) && |l.windows| <= MAX_TRACKED_PEERS
  }

  lemma {:induction false} WithoutMembers(order: seq<Peer>, p: Peer)
    requires NoRepeats(order)
    ensures NoRepeats(Without(order, p)) && forall q :: q in Without(order, p) <==> q in order && q != p
  {
    if order != [] {
      WithoutMembers(order[1..], p);
      assert order == [order[0]] + order[1..];
      assert order[0] !in order[1..];
    }
  }

  lemma RemovedOne(m: map<Peer, seq<nat>>, p: Peer)
    requires p in m
    ensures |m - {p}| == |m| - 1
  {
    assert m == (m - {p})[p := m[p]];
  }

  lemma EvictionTracks(l: Limiter, peer: Peer)
    requires Tracked(l)
    ensures var m := AfterEviction(l, peer);
            Tracked(m) && (peer in m.windows <==> peer in l.windows) && (peer !in m.windows ==> |m.windows| < MAX_TRACKED_PEERS)
  {
    if Evicted(l, peer).Some? {
      WithoutMembers(l.order, l.order[0]);
      RemovedOne(l.windows, l.order[0]);
    }
  }

  lemma EntryTracks(l: Limiter, peer: Peer)
    requires Tracked(l) && (peer !in l.windows ==> |l.windows| < MAX_TRACKED_PEERS)
    ensures Tracked(Entered(l, peer)) && peer in Entered(l, peer).windows
  {
    if peer !in l.windows {
      assert peer !in l.order;
      assert (l.windows[peer := []] - {peer}) == l.windows;
      RemovedOne(l.windows[peer := []], peer);
    }
  }

  /** Every check keeps the table consistent and capped. */
  lemma CheckTracks(l: Limiter, peer: Peer, now: nat)
    requires Tracked(l)
    ensures Tracked(Checked(l, peer, now).limiter) && peer in Checked(l, peer, now).limiter.windows
  {
    EvictionTracks(l, peer);
    var m := Entered(AfterEviction(l, peer), peer);
    EntryTracks(AfterEviction(l, peer), peer);
    SameSize(m.windows, peer, Checked(l, peer, now).limiter.windows[peer]);
  }

  lemma SameSize(m: map<Peer, seq<nat>>, p: Peer, v: seq<nat>)
    requires p in m
    ensures |m[p := v]| == |m|
  {
    RemovedOne(m, p);
    RemovedOne(m[p := v], p);
    assert m[p := v] - {p} == m - {p};
  }

  // ---------- the window, over every run ----------

  datatype Call = Call(peer: Peer, now: nat)

  function Run(max: nat, window: nat, calls: seq<Call>): (l: Limiter)
    ensures l.max == max && l.window == window
  {
    if calls == [] then Limiter(map[], [], max, window)
    else
      var last := calls[|calls| - 1];
      Checked(Run(max, window, calls[..|calls| - 1]), last.peer, last.now).limiter
  }

  /** The answer to a call made after the calls before it. */
  function Allowed(max: nat, window: nat, calls: seq<Call>, call: Call): bool {
    Checked(Run(max, window, calls), call.peer, call.now).allowed
  }

  /** When `p` was accepted, since it was last evicted. */
  function Log(max: nat, window: nat, calls: seq<Call>, p: Peer): seq<nat> {
    if calls == [] then []
    else
      var before := calls[..|calls| - 1];
      Noted(Run(max, window, before), calls[|calls| - 1], p, Log(max, window, before, p))
  }

  /** The clock never goes back. */
  ghost predicate Timely(calls: seq<Call>) { forall i, j | 0 <= i < j < |calls| :: calls[i].now <= calls[j].now }

  function Clock(calls: seq<Call>): nat { if calls == [] then 0 else calls[|calls| - 1].now }

  /** Times in order, none after `clock`. */
  ghost predicate Ascending(log: seq<nat>, clock: nat) {
    (forall i, j | 0 <= i < j < |log| :: log[i] <= log[j]) && forall i | 0 <= i < |log| :: log[i] <= clock
  }

  /** The stored times are the end of the log, and everything before them has expired. */
  ghost predicate Window(stored: seq<nat>, log: seq<nat>, clock: nat, window: nat) {
    && |stored| <= |log| && stored == log[|log| - |stored|..]
    && forall i | 0 <= i < |log| - |stored| :: clock - log[i] >= window
  }

  /** Any `max + 1` successive acceptances span at least the window. */
  ghost predicate Spread(log: seq<nat>, max: nat, window: nat) {
    forall i | 0 <= i && i + max < |log| :: log[i + max] - log[i] >= window
  }

  ghost predicate Faithful(l: Limiter, p: Peer, log: seq<nat>, clock: nat) {
    && Ascending(log, clock) && Spread(log, l.max, l.window)
    && (p !in l.windows ==> log == [])
    && (p in l.windows ==> |l.windows[p]| <= l.max && Window(l.windows[p], log, clock, l.window))
  }

  /** On ordered times `retain` drops a front of expired times and keeps the rest. */
  lemma {:induction false} LiveIsSuffix(times: seq<nat>, now: nat, window: nat)
    requires Ascending(times, now)
    ensures var k := |times| - |Live(times, now, window)|;
            && Live(times, now, window) == times[k..]
            && (forall i | 0 <= i < k :: now - times[i] >= window)
            && (forall i | k <= i < |times| :: now - times[i] < window)
  {
    if times != [] {
      LiveIsSuffix(times[1..], now, window);
      if now - times[0] < window {
        assert forall i | 0 <= i < |times| :: now - times[i] < window;
        AllLive(times, now, window);
      } else {
        assert times[1..][|times| - 1 - |Live(times, now, window)|..] == times[|times| - |Live(times, now, window)|..];
      }
    }
  }

  lemma {:induction false} AllLive(times: seq<nat>, now: nat, window: nat)
    requires Ascending(times, now) && forall i | 0 <= i < |times| :: now - times[i] < window
    ensures Live(times, now, window) == times
  {
    if times != [] {
      AllLive(times[1..], now, window);
      assert times == [times[0]] + times[1..];
    }
  }

  /** Dropping expired times keeps the picture. */
  lemma WindowShrinks(stored: seq<nat>, log: seq<nat>, clock: nat, now: nat, window: nat)
    requires Ascending(log, clock) && Window(stored, log, clock, window) && clock <= now
    ensures Window(Live(stored, now, window), log, now, window)
    ensures forall i | |log| - |Live(stored, now, window)| <= i < |log| :: now - log[i] < window
  {
    var d := |log| - |stored|;
    LiveIsSuffix(stored, now, window);
    var k := |stored| - |Live(stored, now, window)|;
    assert log[d..][k..] == log[d + k..];
    forall i | 0 <= i < d + k ensures now - log[i] >= window {
      if i >= d { assert stored[i - d] == log[i]; }
    }
    forall i | d + k <= i < |log| ensures now - log[i] < window { assert stored[i - d] == log[i]; }
  }

  lemma AcceptSpreads(live: seq<nat>, log: seq<nat>, now: nat, max: nat, window: nat)
    requires Ascending(log, now) && Window(live, log, now, window) && Spread(log, max, window) && |live| < max
    ensures Ascending(log + [now], now) && Window(live + [now], log + [now], now, window) && Spread(log + [now], max, window)
  {
    var longer := log + [now];
    assert longer[|longer| - |live + [now]|..] == log[|log| - |live|..] + [now];
    forall i | 0 <= i && i + max < |longer| ensures longer[i + max] - longer[i] >= window {
      if i + max == |log| {
        assert i < |log| - |live|;
      }
    }
  }

  lemma FaithfulLater(l: Limiter, p: Peer, log: seq<nat>, clock: nat, now: nat)
    requires Faithful(l, p, log, clock) && clock <= now
    ensures Faithful(l, p, log, now)
  {
  }

  function StoredFor(l: Limiter, p: Peer): seq<nat> { if p in l.windows then l.windows[p] else [] }

  lemma CheckedIs(l: Limiter, p: Peer, now: nat)
    requires Tracked(l)
    ensures var a, live := Checked(l, p, now), Live(StoredFor(l, p), now, l.window);
            && a.allowed == (|live| < l.max) && a.limiter.max == l.max && a.limiter.window == l.window
            && p in a.limiter.windows && a.limiter.windows[p] == if a.allowed then live + [now] else live
  {
    EvictionTracks(l, p);
    NeverEvictsItself(l, p);
  }

  lemma NeverEvictsItself(l: Limiter, p: Peer)
    requires Tracked(l)
    ensures Evicted(l, p) != Some(p)
  {
    assert l.order != [] ==> l.order[0] in l.order;
  }

  /** The part of faithfulness that concerns one list of stored times. */
  ghost predicate Keeps(stored: seq<nat>, log: seq<nat>, clock: nat, max: nat, window: nat) {
    Ascending(log, clock) && Spread(log, max, window) && |stored| <= max && Window(stored, log, clock, window)
  }

  lemma FaithfulKeeps(l: Limiter, p: Peer, log: seq<nat>, clock: nat)
    requires Faithful(l, p, log, clock)
    ensures Keeps(StoredFor(l, p), log, clock, l.max, l.window)
  {
  }

  lemma KeepsFaithful(l: Limiter, p: Peer, log: seq<nat>, clock: nat)
    requires p in l.windows && Keeps(l.windows[p], log, clock, l.max, l.window)
    ensures Faithful(l, p, log, clock)
  {
  }

  lemma KeepsLive(stored: seq<nat>, log: seq<nat>, now: nat, max: nat, window: nat)
    requires Keeps(stored, log, now, max, window)
    ensures var live := Live(stored, now, window);
            && (|live| < max ==> Keeps(live + [now], log + [now], now, max, window))
            && (|live| >= max ==> Keeps(live, log, now, max, window) && |log| >= max
                                  && forall i | |log| - max <= i < |log| :: now - log[i] < window)
  {
    var live := Live(stored, now, window);
    WindowShrinks(stored, log, now, now, window);
    if |live| < max {
      AcceptSpreads(live, log, now, max, window);
    }
  }

  /** What a check does to the checked peer. */
  lemma CheckedPeer(l: Limiter, p: Peer, log: seq<nat>, now: nat)
    requires Tracked(l) && Faithful(l, p, log, now)
    ensures var a := Checked(l, p, now);
            && Faithful(a.limiter, p, if a.allowed then log + [now] else log, now)
            && (!a.allowed ==> |log| >= l.max && forall i | |log| - l.max <= i < |log| :: now - log[i] < l.window)
  {
    var a := Checked(l, p, now);
    FaithfulKeeps(l, p, log, now);
    KeepsLive(StoredFor(l, p), log, now, l.max, l.window);
    CheckedIs(l, p, now);
    KeepsFaithful(a.limiter, p, if a.allowed then log + [now] else log, now);
  }

  /** A check leaves every other peer alone, unless it evicts it. */
  lemma OtherPeer(l: Limiter, peer: Peer, p: Peer, log: seq<nat>, now: nat)
    requires Tracked(l) && Faithful(l, p, log, now) && p != peer
    ensures Faithful(Checked(l, peer, now).limiter, p, if Evicted(l, peer) == Some(p) then [] else log, now)
  {
    var m := Checked(l, peer, now).limiter;
    if Evicted(l, peer) == Some(p) {
      assert p !in m.windows;
    } else {
      assert p in m.windows <==> p in l.windows;
      assert p in l.windows ==> m.windows[p] == l.windows[p];
    }
  }

  /** The log of `p` after one more call. */
  function Noted(l: Limiter, call: Call, p: Peer, log: seq<nat>): seq<nat> {
    if Evicted(l, call.peer) == Some(p) then []
    else log + if call.peer == p && Checked(l, call.peer, call.now).allowed then [call.now] else []
  }

  lemma StepKeeps(l: Limiter, call: Call, p: Peer, log: seq<nat>)
    requires Tracked(l) && Faithful(l, p, log, call.now)
    ensures Faithful(Checked(l, call.peer, call.now).limiter, p, Noted(l, call, p, log), call.now)
  {
    if p == call.peer {
      OwnStep(l, call, log);
    } else {
      OtherPeer(l, call.peer, p, log, call.now);
      assert log + [] == log;
    }
  }

  lemma OwnStep(l: Limiter, call: Call, log: seq<nat>)
    requires Tracked(l) && Faithful(l, call.peer, log, call.now)
    ensures Faithful(Checked(l, call.peer, call.now).limiter, call.peer, Noted(l, call, call.peer, log), call.now)
  {
    NeverEvictsItself(l, call.peer);
    CheckedPeer(l, call.peer, log, call.now);
    assert log + [] == log;
  }

  /** One more call keeps the limiter faithful to the log of every peer. */
  lemma CallKeeps(max: nat, window: nat, calls: seq<Call>, call: Call, p: Peer)
    requires Tracked(Run(max, window, calls)) && Clock(calls) <= call.now
    requires Faithful(Run(max, window, calls), p, Log(max, window, calls, p), Clock(calls))
    ensures var longer := calls + [call];
            Tracked(Run(max, window, longer)) && Faithful(Run(max, window, longer), p, Log(max, window, longer, p), call.now)
  {
    var l, log := Run(max, window, calls), Log(max, window, calls, p);
    assert (calls + [call])[..|calls|] == calls;
    CheckTracks(l, call.peer, call.now);
    FaithfulLater(l, p, log, Clock(calls), call.now);
    StepKeeps(l, call, p, log);
  }

  ghost function FaithfulAt(max: nat, window: nat, calls: seq<Call>, p: Peer): nat -> bool {
    (k: nat) => k <= |calls| && Tracked(Run(max, window, calls[..k]))
                && Faithful(Run(max, window, calls[..k]), p, Log(max, window, calls[..k], p), Clock(calls[..k]))
  }

  lemma FaithfulNext(max: nat, window: nat, calls: seq<Call>, k: nat, p: Peer)
    requires Timely(calls) && k < |calls| && FaithfulAt(max, window, calls, p)(k)
    ensures FaithfulAt(max, window, calls, p)(k + 1)
  {
    ClockBefore(calls, k);
    CallKeeps(max, window, calls[..k], calls[k], p);
  }

  lemma ClockBefore(calls: seq<Call>, k: nat)
    requires Timely(calls) && k < |calls|
    ensures Clock(calls[..k]) <= calls[k].now && Clock(calls[..k + 1]) == calls[k].now
    ensures calls[..k + 1] == calls[..k] + [calls[k]]
  {
  }

  lemma RunFaithful(max: nat, window: nat, calls: seq<Call>, p: Peer)
    requires Timely(calls)
    ensures Tracked(Run(max, window, calls))
    ensures Faithful(Run(max, window, calls), p, Log(max, window, calls, p), Clock(calls))
  {
    assert calls[..0] == [] && calls[..|calls|] == calls;
    forall k: nat | k < |calls| && FaithfulAt(max, window, calls, p)(k) ensures FaithfulAt(max, window, calls, p)(k + 1) {
      FaithfulNext(max, window, calls, k, p);
    }
    Induct(FaithfulAt(max, window, calls, p), |calls|);
  }

  /** In every run at most 4,096 peers are tracked, and the insertion order lists exactly them, each once. */
  lemma {:induction false} TableInEveryRun(max: nat, window: nat, calls: seq<Call>)
    ensures Tracked(Run(max, window, calls))
  {
    if calls != [] {
      var before, call := calls[..|calls| - 1], calls[|calls| - 1];
      TableInEveryRun(max, window, before);
      CheckTracks(Run(max, window, before), call.peer, call.now);
    }
  }

  function CountIn(log: seq<nat>, from: nat, window: nat): nat {
    if log == [] then 0
    else CountIn(log[..|log| - 1], from, window) + if from <= log[|log| - 1] < from + window then 1 else 0
  }

  /** In an ascending list that ends before `from + window`, the times counted are the last ones. */
  lemma {:induction false} CountedAreLast(log: seq<nat>, from: nat, window: nat, m: nat)
    requires Ascending(log, from + window) && (forall i | 0 <= i < |log| :: log[i] < from + window)
    requires 1 <= m <= CountIn(log, from, window)
    ensures m <= |log| && log[|log| - m] >= from
  {
    var front := log[..|log| - 1];
    if log[|log| - 1] >= from {
      if m > 1 { CountedAreLast(front, from, window, m - 1); }
    } else {
      CountedAreLast(front, from, window, m);
    }
  }

  /** If the last time lies in the interval, fewer than `max` earlier ones do. */
  lemma RoomForLast(log: seq<nat>, clock: nat, max: nat, window: nat, from: nat)
    requires Ascending(log, clock) && Spread(log, max, window) && log != [] && from <= log[|log| - 1] < from + window
    ensures CountIn(log[..|log| - 1], from, window) < max
  {
    var front, i := log[..|log| - 1], |log| - 1 - max;
    assert i >= 0 ==> log[i + max] - log[i] >= window;
    if 1 <= max <= CountIn(front, from, window) {
      CountedAreLast(front, from, window, max);
    }
  }

  lemma {:induction false} SpreadCounts(log: seq<nat>, clock: nat, max: nat, window: nat, from: nat)
    requires Ascending(log, clock) && Spread(log, max, window)
    ensures CountIn(log, from, window) <= max
  {
    if log != [] {
      SpreadCounts(log[..|log| - 1], clock, max, window, from);
      if from <= log[|log| - 1] < from + window {
        RoomForLast(log, clock, max, window, from);
      }
    }
  }

  /** The sliding-window guarantee: in every run with a clock that never goes back, a peer is accepted at most
      `max` times in any interval of the window's length since it was last evicted. */
  lemma AtMostMaxPerWindow(max: nat, window: nat, calls: seq<Call>, p: Peer, from: nat)
    requires Timely(calls)
    ensures CountIn(Log(max, window, calls, p), from, window) <= max
  {
    RunFaithful(max, window, calls, p);
    SpreadCounts(Log(max, window, calls, p), Clock(calls), max, window, from);
  }

  /** A peer is refused only when its last `max` acceptances all fall within the window before the call. */
  lemma RefusedOnlyWhenFull(max: nat, window: nat, calls: seq<Call>, call: Call)
    requires Timely(calls + [call]) && !Allowed(max, window, calls, call)
    ensures var log := Log(max, window, calls, call.peer);
            |log| >= max && forall i | |log| - max <= i < |log| :: call.now - log[i] < window
  {
    var p, log := call.peer, Log(max, window, calls, call.peer);
    forall i, j | 0 <= i < j < |calls| ensures calls[i].now <= calls[j].now {
      assert (calls + [call])[i] == calls[i] && (calls + [call])[j] == calls[j];
    }
    RunFaithful(max, window, calls, p);
    assert calls != [] ==> (calls + [call])[|calls| - 1].now <= (calls + [call])[|calls|].now;
    FaithfulLater(Run(max, window, calls), p, log, Clock(calls), call.now);
    CheckedPeer(Run(max, window, calls), p, log, call.now);
  }

  // ---------- who is evicted ----------

  /** How many calls had been made when `p` last entered the table. */
  function Since(max: nat, window: nat, calls: seq<Call>, p: Peer): (n: nat)
    ensures n <= |calls|
  {
    if calls == [] then 0
    else
      var before := calls[..|calls| - 1];
      if calls[|calls| - 1].peer == p && p !in Run(max, window, before).windows then |calls| else Since(max, window, before, p)
  }

  ghost predicate OldestFirst(since: Peer -> nat, order: seq<Peer>) {
    forall i, j | 0 <= i < j < |order| :: since(order[i]) < since(order[j])
  }

  lemma {:induction false} WithoutAbsent(order: seq<Peer>, p: Peer)
    requires p !in order
    ensures Without(order, p) == order
  {
    if order != [] { WithoutAbsent(order[1..], p); }
  }

  /** The order after a check: the front leaves if someone is evicted, a newcomer joins at the back. */
  lemma OrderAfter(l: Limiter, peer: Peer, now: nat)
    requires Tracked(l)
    ensures var kept := if Evicted(l, peer).Some? then l.order[1..] else l.order;
            Checked(l, peer, now).limiter.order == if peer in l.windows then l.order else kept + [peer]
  {
    if Evicted(l, peer).Some? { WithoutAbsent(l.order[1..], l.order[0]); }
  }

  lemma OneMoreBehind(since: Peer -> nat, later: Peer -> nat, order: seq<Peer>, kept: seq<Peer>, p: Peer, n: nat)
    requires OldestFirst(since, order) && (kept == order || (order != [] && kept == order[1..]))
    requires forall q | q in order :: later(q) == since(q) <= n
    ensures OldestFirst(later, kept) && (later(p) > n ==> OldestFirst(later, kept + [p]))
  {
    forall i | 0 <= i < |kept| ensures later(kept[i]) == since(kept[i]) <= n { assert kept[i] in order; }
  }

  ghost function SinceIn(max: nat, window: nat, calls: seq<Call>): Peer -> nat { p => Since(max, window, calls, p) }

  lemma {:induction false} OrderIsByAge(max: nat, window: nat, calls: seq<Call>)
    ensures OldestFirst(SinceIn(max, window, calls), Run(max, window, calls).order)
  {
    if calls != [] {
      var before, call := calls[..|calls| - 1], calls[|calls| - 1];
      OrderIsByAge(max, window, before);
      var l := Run(max, window, before);
      TableInEveryRun(max, window, before);
      OrderAfter(l, call.peer, call.now);
      OneMoreBehind(SinceIn(max, window, before), SinceIn(max, window, calls), l.order, l.order, call.peer, |before|);
      if Evicted(l, call.peer).Some? {
        OneMoreBehind(SinceIn(max, window, before), SinceIn(max, window, calls), l.order, l.order[1..], call.peer, |before|);
      }
    }
  }

  /** In every run, a newcomer to a full table evicts the peer that has been in the table longest, and nobody else is ever
      evicted. */
  lemma EvictsLongestTracked(max: nat, window: nat, calls: seq<Call>, peer: Peer, now: nat, q: Peer)
    requires q in Run(max, window, calls).windows
    ensures var l, m := Run(max, window, calls), Checked(Run(max, window, calls), peer, now).limiter;
            q !in m.windows <==>
            peer !in l.windows && |l.windows| == 4_096
            && forall p | p in l.windows && p != q :: Since(max, window, calls, q) < Since(max, window, calls, p)
  {
    var l := Run(max, window, calls);
    TableInEveryRun(max, window, calls);
    OrderIsByAge(max, window, calls);
    FrontIsOldest(l, SinceIn(max, window, calls), q);
  }

  lemma FrontIsOldest(l: Limiter, since: Peer -> nat, q: Peer)
    requires Tracked(l) && OldestFirst(since, l.order) && q in l.windows
    ensures l.order != [] && (q == l.order[0] <==> forall p | p in l.windows && p != q :: since(q) < since(p))
  {
    var i :| 0 <= i < |l.order| && l.order[i] == q;
    if i == 0 {
      forall p | p in l.windows && p != q ensures since(q) < since(p) {
        var j :| 0 <= j < |l.order| && l.order[j] == p;
      }
    } else {
      assert l.order[0] in l.windows && since(l.order[0]) < since(l.order[i]);
    }
  }
}
