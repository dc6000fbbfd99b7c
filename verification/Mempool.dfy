/** The pool of unconfirmed transactions and its fee-rate order (src/transaction/mempool.rs). */
module Pools {
  import opened Basics
  import opened Transactions

  const MAX_MEMPOOL_BYTES: nat := 32 * 1024 * 1024
  const MIN_FEE: nat := 1_000

  datatype Pool = Pool(txs: map<Hash, Transaction>, fees: map<Hash, nat>, totalBytes: nat)

  const EMPTY_POOL := Pool(map[], map[], 0)

  datatype Admission = Admission(pool: Pool, result: Result<Hash>)

  /** `add_with_fee`. A transaction already held keeps its recorded fee. */
  function AddWithFee(c: Crypto, p: Pool, tx: Transaction, fee: nat): Admission {
    var txid := Txid(c, tx);
    if fee < MIN_FEE then Admission(p, Err(FeeTooLow))
    else if p.totalBytes + TxSize(c, tx) > MAX_MEMPOOL_BYTES then Admission(p, Err(MempoolFull))
    else if txid in p.txs then Admission(p.(txs := p.txs[txid := tx]), Ok(txid))
    else Admission(Pool(p.txs[txid := tx], p.fees[txid := fee], p.totalBytes + TxSize(c, tx)), Ok(txid))
  }

  /** Admission after validation: a transaction that failed never reaches the pool. */
  function Offer(c: Crypto, p: Pool, tx: Transaction, fee: Result<nat>): Admission {
    if fee.Err? then Admission(p, Err(fee.error)) else AddWithFee(c, p, tx, fee.value)
  }

  /** `remove`. */
  function Remove(c: Crypto, p: Pool, txid: Hash): Pool {
    if txid in p.txs
    then Pool(p.txs - {txid}, p.fees - {txid}, SatSub(p.totalBytes, TxSize(c, p.txs[txid])))
    else p
  }

  /** Every transaction of a block leaves the pool. */
  function RemoveAll(c: Crypto, p: Pool, txs: seq<Transaction>): Pool {
    if txs == [] then p else Remove(c, RemoveAll(c, p, txs[..|txs| - 1]), Txid(c, txs[|txs| - 1]))
  }

  function FeeFor(p: Pool, txid: Hash): nat { if txid in p.fees then p.fees[txid] else 0 }

  // ---------- accounting over every run ----------

  function SizeOf(c: Crypto): Transaction -> nat { (tx: Transaction) => TxSize(c, tx) }

  /** Serialised bytes of everything held. */
  ghost function HeldBytes(c: Crypto, m: map<Hash, Transaction>): nat { SumOver(SizeOf(c), m) }

  lemma HeldWithout(c: Crypto, m: map<Hash, Transaction>, id: Hash)
    requires id in m
    ensures HeldBytes(c, m) == TxSize(c, m[id]) + HeldBytes(c, m - {id})
  {
    SumWithout(SizeOf(c), m, id);
  }

  lemma HeldWith(c: Crypto, m: map<Hash, Transaction>, id: Hash, tx: Transaction)
    ensures HeldBytes(c, m[id := tx]) == TxSize(c, tx) + HeldBytes(c, m - {id})
  {
    HeldWithout(c, m[id := tx], id);
    assert m[id := tx] - {id} == m - {id};
  }

  /** The books balance: sizes add up within the cap, every fee belongs to a held transaction and clears
      the minimum, and every transaction is filed under its own txid. */
  ghost predicate Accounted(c: Crypto, p: Pool) {
    p.totalBytes == HeldBytes(c, p.txs) <= MAX_MEMPOOL_BYTES && Filed(c, p.txs, p.fees)
  }

  ghost predicate Filed(c: Crypto, txs: map<Hash, Transaction>, fees: map<Hash, nat>) {
    && fees.Keys == txs.Keys
    && (forall id | id in txs :: Txid(c, txs[id]) == id)
    && (forall id | id in fees :: fees[id] >= MIN_FEE)
  }

  lemma FileMore(c: Crypto, txs: map<Hash, Transaction>, fees: map<Hash, nat>, id: Hash, tx: Transaction, fee: nat)
    requires Filed(c, txs, fees) && Txid(c, tx) == id && fee >= MIN_FEE
    ensures Filed(c, txs[id := tx], fees[id := fee])
  {
    assert fees[id := fee].Keys == txs[id := tx].Keys;
  }

  datatype PoolEvent = Enter(tx: Transaction, fee: nat) | Leave(txid: Hash)

  function PoolStep(c: Crypto, p: Pool, e: PoolEvent): Pool {
    match e
    case Enter(tx, fee) => AddWithFee(c, p, tx, fee).pool
    case Leave(txid) => Remove(c, p, txid)
  }

  function PoolRun(c: Crypto, events: seq<PoolEvent>): Pool {
    if events == [] then EMPTY_POOL
    else PoolStep(c, PoolRun(c, events[..|events| - 1]), events[|events| - 1])
  }

  /** A transaction of the pool with this transaction's txid has its size: no hash collision with the pool. */
  ghost predicate SizeAgrees(c: Crypto, p: Pool, tx: Transaction) {
    Txid(c, tx) in p.txs ==> TxSize(c, p.txs[Txid(c, tx)]) == TxSize(c, tx)
  }

  lemma FileAgain(c: Crypto, txs: map<Hash, Transaction>, fees: map<Hash, nat>, id: Hash, tx: Transaction)
    requires Filed(c, txs, fees) && Txid(c, tx) == id && id in txs
    ensures Filed(c, txs[id := tx], fees)
  {
    assert txs[id := tx].Keys == txs.Keys;
  }

  lemma HeldAgain(c: Crypto, m: map<Hash, Transaction>, id: Hash, tx: Transaction)
    requires id in m && TxSize(c, m[id]) == TxSize(c, tx)
    ensures HeldBytes(c, m[id := tx]) == HeldBytes(c, m)
  {
    HeldWith(c, m, id, tx);
    HeldWithout(c, m, id);
  }

  lemma AgainKeepsAccount(c: Crypto, p: Pool, id: Hash, tx: Transaction)
    requires Accounted(c, p) && Txid(c, tx) == id && id in p.txs && TxSize(c, p.txs[id]) == TxSize(c, tx)
    ensures Accounted(c, p.(txs := p.txs[id := tx]))
  {
    HeldAgain(c, p.txs, id, tx);
    FileAgain(c, p.txs, p.fees, id, tx);
  }

  lemma NewKeepsAccount(c: Crypto, p: Pool, id: Hash, tx: Transaction, fee: nat)
    requires Accounted(c, p) && Txid(c, tx) == id && id !in p.txs
    requires fee >= MIN_FEE && p.totalBytes + TxSize(c, tx) <= MAX_MEMPOOL_BYTES
    ensures Accounted(c, Pool(p.txs[id := tx], p.fees[id := fee], p.totalBytes + TxSize(c, tx)))
  {
    HeldWith(c, p.txs, id, tx);
    assert p.txs - {id} == p.txs;
    FileMore(c, p.txs, p.fees, id, tx, fee);
  }

  lemma AddKeepsAccount(c: Crypto, p: Pool, tx: Transaction, fee: nat)
    requires Accounted(c, p) && SizeAgrees(c, p, tx)
    ensures Accounted(c, AddWithFee(c, p, tx, fee).pool)
  {
    if fee >= MIN_FEE && p.totalBytes + TxSize(c, tx) <= MAX_MEMPOOL_BYTES {
      if Txid(c, tx) in p.txs {
        AgainKeepsAccount(c, p, Txid(c, tx), tx);
      } else {
        NewKeepsAccount(c, p, Txid(c, tx), tx, fee);
      }
    }
  }

  lemma RemoveKeepsAccount(c: Crypto, p: Pool, txid: Hash)
    requires Accounted(c, p)
    ensures Accounted(c, Remove(c, p, txid))
  {
    if txid in p.txs {
      HeldWithout(c, p.txs, txid);
    }
  }

  lemma {:induction false} RemoveAllKeepsAccount(c: Crypto, p: Pool, txs: seq<Transaction>)
    requires Accounted(c, p)
    ensures Accounted(c, RemoveAll(c, p, txs))
  {
    if txs != [] {
      RemoveAllKeepsAccount(c, p, txs[..|txs| - 1]);
      RemoveKeepsAccount(c, RemoveAll(c, p, txs[..|txs| - 1]), Txid(c, txs[|txs| - 1]));
    }
  }

  ghost function Offered(events: seq<PoolEvent>): set<Transaction> {
    set e | e in events && e.Enter? :: e.tx
  }

  lemma {:induction false} HeldWereOffered(c: Crypto, events: seq<PoolEvent>, k: nat, id: Hash)
    requires k <= |events| && id in PoolRun(c, events[..k]).txs
    ensures PoolRun(c, events[..k]).txs[id] in Offered(events)
  {
    if k > 0 {
      var e := events[k - 1];
      assert events[..k][..k - 1] == events[..k - 1] && events[..k][k - 1] == e;
      assert e in events;
      if id in PoolRun(c, events[..k - 1]).txs {
        HeldWereOffered(c, events, k - 1, id);
      }
    }
  }

  lemma NoCollisionSameSize(c: Crypto, s: set<Transaction>, a: Transaction, b: Transaction)
    requires CollisionFree(c.hash256, set t | t in s :: c.serialize(t))
    requires a in s && b in s && Txid(c, a) == Txid(c, b)
    ensures TxSize(c, a) == TxSize(c, b)
  {
    HexInjective(TxDigest(c, a), TxDigest(c, b));
  }

  /** Over every run of admissions and removals the pool's books balance and stay within 32 MiB. */
  lemma {:induction false} PoolAccounted(c: Crypto, events: seq<PoolEvent>, k: nat)
    requires CollisionFree(c.hash256, set t | t in Offered(events) :: c.serialize(t)) && k <= |events|
    ensures Accounted(c, PoolRun(c, events[..k]))
  {
    if k > 0 {
      PoolAccounted(c, events, k - 1);
      var e, p := events[k - 1], PoolRun(c, events[..k - 1]);
      assert events[..k][..k - 1] == events[..k - 1] && events[..k][k - 1] == e;
      if e.Enter? {
        assert e in events;
        if Txid(c, e.tx) in p.txs {
          HeldWereOffered(c, events, k - 1, Txid(c, e.tx));
          NoCollisionSameSize(c, Offered(events), p.txs[Txid(c, e.tx)], e.tx);
        }
        AddKeepsAccount(c, p, e.tx, e.fee);
      } else {
        RemoveKeepsAccount(c, p, e.txid);
      }
    }
  }

  // ---------- the fee-rate order ----------

  /** Rust's order on strings of ASCII characters. */
  predicate TextLess(a: string, b: string) {
    b != [] && (a == [] || a[0] < b[0] || (a[0] == b[0] && TextLess(a[1..], b[1..])))
  }

  lemma {:induction false} TextTrichotomy(a: string, b: string)
    ensures TextLess(a, b) ==> !TextLess(b, a) && a != b
    ensures a != b ==> TextLess(a, b) || TextLess(b, a)
  {
    if a != [] && b != [] && a[0] == b[0] {
      TextTrichotomy(a[1..], b[1..]);
      assert a == [a[0]] + a[1..] && b == [b[0]] + b[1..];
    }
  }

  lemma {:induction false} TextTransitive(a: string, b: string, d: string)
    requires TextLess(a, b) && TextLess(b, d)
    ensures TextLess(a, d)
  {
    if a != [] && a[0] == b[0] && b[0] == d[0] {
      TextTransitive(a[1..], b[1..], d[1..]);
    }
  }

  /** The order by the first difference: a proper prefix comes first, else the smaller character where the texts part. */
  ghost predicate PartsAt(a: string, b: string, k: nat) {
    k <= |a| && k < |b| && a[..k] == b[..k] && (k == |a| || a[k] < b[k])
  }

  lemma PartsLater(a: string, b: string, k: nat)
    requires PartsAt(a, b, k) && k > 0
    ensures a != [] && b != [] && a[0] == b[0] && PartsAt(a[1..], b[1..], k - 1)
  {
    assert a[0] == a[..k][0] && b[0] == b[..k][0];
    assert a[1..][..k - 1] == a[..k][1..] && b[1..][..k - 1] == b[..k][1..];
  }

  lemma PartsEarlier(a: string, b: string, k: nat)
    requires a != [] && b != [] && a[0] == b[0] && PartsAt(a[1..], b[1..], k)
    ensures PartsAt(a, b, k + 1)
  {
    assert a[..k + 1] == [a[0]] + a[1..][..k] && b[..k + 1] == [b[0]] + b[1..][..k];
  }

  lemma {:induction false} TextLessExactly(a: string, b: string)
    ensures TextLess(a, b) <==> exists k: nat :: PartsAt(a, b, k)
  {
    forall k: nat | PartsAt(a, b, k) && k > 0
      ensures a != [] && b != [] && a[0] == b[0] && PartsAt(a[1..], b[1..], k - 1)
    {
      PartsLater(a, b, k);
    }
    if a != [] && b != [] && a[0] == b[0] {
      TextLessExactly(a[1..], b[1..]);
      forall k: nat | PartsAt(a[1..], b[1..], k) ensures PartsAt(a, b, k + 1) { PartsEarlier(a, b, k); }
    } else if TextLess(a, b) {
      assert PartsAt(a, b, 0);
    }
  }

  function SizeFor(c: Crypto, p: Pool, id: Hash): nat
    requires id in p.txs
  {
    Max(TxSize(c, p.txs[id]), 1)
  }

  /** One side of the comparison: the fee of `a` scaled by the size of `b`, saturating at u64. */
  function Scaled(c: Crypto, p: Pool, a: Hash, b: Hash): nat
    requires b in p.txs
  {
    SatMul(FeeFor(p, a), SizeFor(c, p, b))
  }

  /** The comparator of `take`: higher fee rate first, then smaller txid. */
  predicate Before(c: Crypto, p: Pool, a: Hash, b: Hash)
    requires a in p.txs && b in p.txs
  {
    || Scaled(c, p, b, a) < Scaled(c, p, a, b)
    || (Scaled(c, p, b, a) == Scaled(c, p, a, b) && TextLess(a, b))
  }

  lemma BeforeTrichotomy(c: Crypto, p: Pool, a: Hash, b: Hash)
    requires a in p.txs && b in p.txs
    ensures Before(c, p, a, b) ==> !Before(c, p, b, a) && a != b
    ensures a != b ==> Before(c, p, a, b) || Before(c, p, b, a)
  {
    TextTrichotomy(a, b);
  }

  /** An enumeration of the pool, in any order the hash map may deliver. */
  ghost predicate Lists(p: Pool, ids: seq<Hash>) {
    && (forall i | 0 <= i < |ids| :: ids[i] in p.txs)
    && (forall i, j | 0 <= i < j < |ids| :: ids[i] != ids[j])
    && (forall id | id in p.txs :: id in ids)
  }

  ghost predicate InPool(p: Pool, ids: seq<Hash>) { forall i | 0 <= i < |ids| :: ids[i] in p.txs }

  ghost predicate Ordered(c: Crypto, p: Pool, ids: seq<Hash>)
    requires InPool(p, ids)
  {
    forall i, j | 0 <= i < j < |ids| :: Before(c, p, ids[i], ids[j])
  }

  /** The comparator is transitive on this pool. */
  ghost predicate Transitive(c: Crypto, p: Pool) {
    forall x, y, z | x in p.txs && y in p.txs && z in p.txs && Before(c, p, x, y) && Before(c, p, y, z)
      :: Before(c, p, x, z)
  }

  /** No cross product of a fee and a size leaves u64. */
  ghost predicate Exact(c: Crypto, p: Pool) {
    forall x, y | x in p.txs && y in p.txs :: FeeFor(p, x) * SizeFor(c, p, y) <= MAX_U64
  }

  lemma CrossTransitive(fa: nat, sa: nat, fb: nat, sb: nat, fd: nat, sd: nat)
    requires fa * sb >= fb * sa && fb * sd >= fd * sb && sb > 0
    ensures fa * sd >= fd * sa
    ensures fa * sd == fd * sa && sa > 0 && sd > 0 ==> fa * sb == fb * sa && fb * sd == fd * sb
  {
    Scale(fa * sb, fb * sa, sd);
    Scale(fb * sd, fd * sb, sa);
    assert fa * sb * sd == sb * (fa * sd) && fb * sa * sd == sa * (fb * sd);
    assert fd * sb * sa == sb * (fd * sa) && fb * sd * sa == sa * (fb * sd);
    Unscale(fa * sd, fd * sa, sb);
    if fa * sd == fd * sa && sa > 0 && sd > 0 {
      Unscale(fb * sd, fd * sb, sa);
      Unscale(fd * sb, fb * sd, sa);
      Unscale(fb * sa, fa * sb, sd);
    }
  }

  lemma Scale(x: nat, y: nat, k: nat)
    requires x >= y
    ensures x * k >= y * k
  {
  }

  lemma Unscale(x: nat, y: nat, k: nat)
    requires k > 0 && k * x >= k * y
    ensures x >= y
  {
    assert x < y ==> k * (y - x) > 0;
  }

  /** Without saturation the comparator is a strict total order. */
  lemma ExactIsTransitive(c: Crypto, p: Pool)
    requires Exact(c, p)
    ensures Transitive(c, p)
  {
    forall x, y, z | x in p.txs && y in p.txs && z in p.txs && Before(c, p, x, y) && Before(c, p, y, z)
      ensures Before(c, p, x, z)
    {
      CrossTransitive(FeeFor(p, x), SizeFor(c, p, x), FeeFor(p, y), SizeFor(c, p, y), FeeFor(p, z), SizeFor(c, p, z));
      if TextLess(x, y) && TextLess(y, z) { TextTransitive(x, y, z); }
    }
  }

  // ---------- sorting ----------

  function InsertByRate(c: Crypto, p: Pool, ids: seq<Hash>, id: Hash): (r: seq<Hash>)
    requires id in p.txs && InPool(p, ids)
    ensures InPool(p, r) && |r| == |ids| + 1
    ensures forall x :: x in r <==> x == id || x in ids
  {
    if ids == [] then [id]
    else if Before(c, p, id, ids[0]) then [id] + ids
    else [ids[0]] + InsertByRate(c, p, ids[1..], id)
  }

  function SortByRate(c: Crypto, p: Pool, ids: seq<Hash>): (r: seq<Hash>)
    requires InPool(p, ids)
    ensures InPool(p, r) && |r| == |ids|
    ensures forall x :: x in r <==> x in ids
  {
    if ids == [] then []
    else InsertByRate(c, p, SortByRate(c, p, ids[..|ids| - 1]), ids[|ids| - 1])
  }

  lemma FirstBefore(c: Crypto, p: Pool, ids: seq<Hash>, id: Hash)
    requires id in p.txs && InPool(p, ids) && ids != [] && Ordered(c, p, ids) && Before(c, p, ids[0], id)
    ensures forall x | x in InsertByRate(c, p, ids[1..], id) :: Before(c, p, ids[0], x)
  {
    forall x | x in InsertByRate(c, p, ids[1..], id) ensures Before(c, p, ids[0], x) {
      if x != id {
        var k :| 0 <= k < |ids[1..]| && ids[1..][k] == x;
        assert ids[k + 1] == x;
      }
    }
  }

  lemma {:induction false} InsertKeepsOrder(c: Crypto, p: Pool, ids: seq<Hash>, id: Hash)
    requires Transitive(c, p) && id in p.txs && id !in ids && InPool(p, ids) && Ordered(c, p, ids)
    ensures Ordered(c, p, InsertByRate(c, p, ids, id))
  {
    if ids != [] {
      BeforeTrichotomy(c, p, id, ids[0]);
      if Before(c, p, id, ids[0]) {
        forall i | 1 <= i < |ids| ensures Before(c, p, id, ids[i]) { assert Before(c, p, ids[0], ids[i]); }
      } else {
        InsertKeepsOrder(c, p, ids[1..], id);
        FirstBefore(c, p, ids, id);
        PrependOrdered(c, p, ids[0], InsertByRate(c, p, ids[1..], id));
      }
    }
  }

  lemma PrependOrdered(c: Crypto, p: Pool, first: Hash, r: seq<Hash>)
    requires first in p.txs && InPool(p, r) && Ordered(c, p, r) && forall x | x in r :: Before(c, p, first, x)
    ensures Ordered(c, p, [first] + r)
  {
  }

  lemma {:induction false} SortOrders(c: Crypto, p: Pool, ids: seq<Hash>)
    requires Transitive(c, p) && InPool(p, ids)
    requires forall i, j | 0 <= i < j < |ids| :: ids[i] != ids[j]
    ensures Ordered(c, p, SortByRate(c, p, ids))
  {
    if ids != [] {
      var n := |ids| - 1;
      SortOrders(c, p, ids[..n]);
      InsertKeepsOrder(c, p, SortByRate(c, p, ids[..n]), ids[n]);
    }
  }

  lemma OrderedIsDistinct(c: Crypto, p: Pool, ids: seq<Hash>, i: nat, j: nat)
    requires InPool(p, ids) && Ordered(c, p, ids) && i < j < |ids|
    ensures ids[i] != ids[j] && !Before(c, p, ids[j], ids[i])
  {
    BeforeTrichotomy(c, p, ids[i], ids[j]);
  }

  /** At most one ordered enumeration exists, transitive comparator or not. */
  lemma {:induction false} OrderIsUnique(c: Crypto, p: Pool, a: seq<Hash>, b: seq<Hash>)
    requires InPool(p, a) && InPool(p, b) && Ordered(c, p, a) && Ordered(c, p, b)
    requires forall x :: x in a <==> x in b
    ensures a == b
    decreases |a|
  {
    assert a != [] ==> a[0] in a;
    assert b != [] ==> b[0] in b;
    if a != [] {
      SameHead(c, p, a, b);
      SameTail(c, p, a, b);
      OrderIsUnique(c, p, a[1..], b[1..]);
      assert a == [a[0]] + a[1..] && b == [b[0]] + b[1..];
    }
  }

  lemma SameHead(c: Crypto, p: Pool, a: seq<Hash>, b: seq<Hash>)
    requires InPool(p, a) && InPool(p, b) && Ordered(c, p, a) && Ordered(c, p, b)
    requires a != [] && b != [] && a[0] in b && b[0] in a
    ensures a[0] == b[0]
  {
    var i :| 0 <= i < |b| && b[i] == a[0];
    var j :| 0 <= j < |a| && a[j] == b[0];
    if i > 0 && j > 0 {
      BeforeTrichotomy(c, p, a[0], b[0]);
    }
  }

  lemma SameTail(c: Crypto, p: Pool, a: seq<Hash>, b: seq<Hash>)
    requires InPool(p, a) && InPool(p, b) && Ordered(c, p, a) && Ordered(c, p, b)
    requires a != [] && b != [] && a[0] == b[0] && forall x :: x in a <==> x in b
    ensures forall x :: x in a[1..] <==> x in b[1..]
  {
    TailMembers(c, p, a);
    TailMembers(c, p, b);
  }

  lemma TailMembers(c: Crypto, p: Pool, a: seq<Hash>)
    requires InPool(p, a) && Ordered(c, p, a) && a != []
    ensures forall x :: x in a[1..] <==> x in a && x != a[0]
  {
    forall j | 1 <= j < |a| ensures a[j] != a[0] { OrderedIsDistinct(c, p, a, 0, j); }
  }

  /** The identifiers `take` selects when the hash map delivers its entries in the order `ids`. */
  function TakeIds(c: Crypto, p: Pool, ids: seq<Hash>, limit: nat): (r: seq<Hash>)
    requires InPool(p, ids)
    ensures InPool(p, r) && |r| == Min(limit, |ids|)
  {
    SortByRate(c, p, ids)[..Min(limit, |ids|)]
  }

  function TxsAt(p: Pool, ids: seq<Hash>): (r: seq<Transaction>)
    requires InPool(p, ids)
    ensures |r| == |ids|
  {
    seq(|ids|, i requires 0 <= i < |ids| => p.txs[ids[i]])
  }

  function Take(c: Crypto, p: Pool, ids: seq<Hash>, limit: nat): seq<Transaction>
    requires InPool(p, ids)
  {
    TxsAt(p, TakeIds(c, p, ids, limit))
  }

  /** An ordering of the pool by the comparator exists exactly when the comparator is transitive on it. */
  lemma OrderExists(c: Crypto, p: Pool, ids: seq<Hash>)
    requires Lists(p, ids)
    ensures Ordered(c, p, SortByRate(c, p, ids)) <==> Transitive(c, p)
    ensures (exists order :: Lists(p, order) && Ordered(c, p, order)) <==> Transitive(c, p)
  {
    if Transitive(c, p) {
      SortOrders(c, p, ids);
      SortLists(c, p, ids);
    }
    forall order | Lists(p, order) && Ordered(c, p, order) ensures Transitive(c, p) {
      OrderedIsTransitive(c, p, order);
    }
    if Ordered(c, p, SortByRate(c, p, ids)) { SortLists(c, p, ids); }
  }

  lemma SortLists(c: Crypto, p: Pool, ids: seq<Hash>)
    requires Lists(p, ids) && Ordered(c, p, SortByRate(c, p, ids))
    ensures Lists(p, SortByRate(c, p, ids))
  {
    var r := SortByRate(c, p, ids);
    forall i, j | 0 <= i < j < |r| ensures r[i] != r[j] { OrderedIsDistinct(c, p, r, i, j); }
  }

  lemma IndexFromOrder(c: Crypto, p: Pool, order: seq<Hash>, i: nat, j: nat)
    requires InPool(p, order) && Ordered(c, p, order) && i < |order| && j < |order|
    ensures Before(c, p, order[i], order[j]) <==> i < j
  {
    BeforeTrichotomy(c, p, order[i], order[j]);
  }

  lemma OrderedIsTransitive(c: Crypto, p: Pool, order: seq<Hash>)
    requires Lists(p, order) && Ordered(c, p, order)
    ensures Transitive(c, p)
  {
    forall x, y, z | x in p.txs && y in p.txs && z in p.txs && Before(c, p, x, y) && Before(c, p, y, z)
      ensures Before(c, p, x, z)
    {
      var i :| 0 <= i < |order| && order[i] == x;
      var j :| 0 <= j < |order| && order[j] == y;
      var k :| 0 <= k < |order| && order[k] == z;
      IndexFromOrder(c, p, order, i, j);
      IndexFromOrder(c, p, order, j, k);
      IndexFromOrder(c, p, order, i, k);
    }
  }

  /** Whatever order the hash map iterates in, `take` selects the same transactions in the same order,
      and that selection is a prefix of the unique fee-rate-then-txid order. */
  lemma TakeIsDetermined(c: Crypto, p: Pool, ids: seq<Hash>, other: seq<Hash>, limit: nat)
    requires Transitive(c, p) && Lists(p, ids) && Lists(p, other)
    ensures Take(c, p, ids, limit) == Take(c, p, other, limit)
    ensures Ordered(c, p, SortByRate(c, p, ids))
    ensures TakeIds(c, p, ids, limit) <= SortByRate(c, p, ids)
  {
    SortOrders(c, p, ids);
    SortOrders(c, p, other);
    OrderIsUnique(c, p, SortByRate(c, p, ids), SortByRate(c, p, other));
  }

  /** `take` leaves nothing better behind: every entry it selects precedes every entry it does not. */
  lemma TakeTakesBest(c: Crypto, p: Pool, ids: seq<Hash>, limit: nat, i: nat, id: Hash)
    requires Transitive(c, p) && Lists(p, ids) && i < |TakeIds(c, p, ids, limit)|
    requires id in p.txs && id !in TakeIds(c, p, ids, limit)
    ensures Before(c, p, TakeIds(c, p, ids, limit)[i], id)
  {
    var order, taken := SortByRate(c, p, ids), TakeIds(c, p, ids, limit);
    SortOrders(c, p, ids);
    SortLists(c, p, ids);
    var j :| 0 <= j < |order| && order[j] == id;
    assert forall k | 0 <= k < |taken| :: taken[k] == order[k] && taken[k] != id;
  }

  // ---------- what saturation does to the order ----------

  /** The order the comparator stands for: exact fee rate, then txid. */
  predicate RateBefore(c: Crypto, p: Pool, a: Hash, b: Hash)
    requires a in p.txs && b in p.txs
  {
    var mine, theirs := FeeFor(p, a) * SizeFor(c, p, b), FeeFor(p, b) * SizeFor(c, p, a);
    theirs < mine || (theirs == mine && TextLess(a, b))
  }

  /** The comparator agrees with the fee rate on two entries exactly unless both cross products reach the end of u64, differ,
      and the order of the txids contradicts the rate. */
  lemma BeforeIsRate(c: Crypto, p: Pool, a: Hash, b: Hash)
    requires a in p.txs && b in p.txs
    ensures var mine, theirs := FeeFor(p, a) * SizeFor(c, p, b), FeeFor(p, b) * SizeFor(c, p, a);
            (Before(c, p, a, b) <==> RateBefore(c, p, a, b)) <==>
            !(mine >= MAX_U64 && theirs >= MAX_U64 && mine != theirs && (TextLess(a, b) <==> mine < theirs))
  {
    BeforeByProducts(FeeFor(p, a) * SizeFor(c, p, b), FeeFor(p, b) * SizeFor(c, p, a), TextLess(a, b));
  }

  lemma BeforeByProducts(mine: nat, theirs: nat, less: bool)
    ensures var x, y := Min(mine, MAX_U64), Min(theirs, MAX_U64);
            ((y < x || (y == x && less)) <==> (theirs < mine || (theirs == mine && less))) <==>
            !(mine >= MAX_U64 && theirs >= MAX_U64 && mine != theirs && (less <==> mine < theirs))
  {
  }

  /** A transaction of a given size whose serialised form starts with `tag`. */
  function TaggedTx(tag: Byte, size: U32): Transaction { Transaction([], [], size, tag) }

  function TagOf(x: Bytes): (d: Bytes)
    ensures |d| == 32
  {
    [if x == [] then 0 else x[0]] + Zeros(31)
  }

  /** Primitives that put the tag first in the serialised form and in the txid. */
  function TagPrimitives(): Crypto {
    Crypto(TagOf, (t: Transaction) => [t.lockTime % 256] + Zeros(SatSub(t.version, 1)), _ => [], _ => [], _ => [],
           (_, _, _) => false, _ => None)
  }

  function TagId(tag: Byte): Hash { Txid(TagPrimitives(), TaggedTx(tag, 1)) }

  lemma TagFacts(tag: Byte, size: U32)
    requires 1 <= size && tag < 10
    ensures Txid(TagPrimitives(), TaggedTx(tag, size)) == TagId(tag)
    ensures TxSize(TagPrimitives(), TaggedTx(tag, size)) == size
    ensures |TagId(tag)| >= 2 && TagId(tag)[0] == '0' && TagId(tag)[1] == HexDigit(tag)
  {
    var c := TagPrimitives();
    assert c.serialize(TaggedTx(tag, size))[0] == tag && c.serialize(TaggedTx(tag, 1))[0] == tag;
    assert TxDigest(c, TaggedTx(tag, size)) == [tag] + Zeros(31) == TxDigest(c, TaggedTx(tag, 1));
  }

  lemma TagsAscend(a: Byte, b: Byte)
    requires a < b < 10
    ensures TextLess(TagId(a), TagId(b)) && TagId(a) != TagId(b)
  {
    TagFacts(a, 1);
    TagFacts(b, 1);
    assert TagId(a)[1..][0] < TagId(b)[1..][0];
  }

  /** Three submissions: two of two kilobytes, one of one, with fees below the supply cap. */
  function CycleEvents(): seq<PoolEvent> {
    [Enter(TaggedTx(1, 2048), 0x20_0000_0000_0000), Enter(TaggedTx(2, 2048), 0x40_0000_0000_0000),
     Enter(TaggedTx(3, 1024), 0x20_0000_0000_0000)]
  }

  lemma EntersPool(c: Crypto, p: Pool, tx: Transaction, fee: nat, id: Hash)
    requires fee >= MIN_FEE && p.totalBytes + TxSize(c, tx) <= MAX_MEMPOOL_BYTES && Txid(c, tx) == id && id !in p.txs
    ensures AddWithFee(c, p, tx, fee).pool == Pool(p.txs[id := tx], p.fees[id := fee], p.totalBytes + TxSize(c, tx))
  {
  }

  function CyclePool(): Pool {
    Pool(map[TagId(1) := TaggedTx(1, 2048)][TagId(2) := TaggedTx(2, 2048)][TagId(3) := TaggedTx(3, 1024)],
         map[TagId(1) := 0x20_0000_0000_0000][TagId(2) := 0x40_0000_0000_0000][TagId(3) := 0x20_0000_0000_0000], 5120)
  }

  lemma OneMoreEnters(c: Crypto, events: seq<PoolEvent>, p: Pool, tx: Transaction, fee: nat, id: Hash)
    requires PoolRun(c, events) == p && Txid(c, tx) == id && id !in p.txs
    requires fee >= MIN_FEE && p.totalBytes + TxSize(c, tx) <= MAX_MEMPOOL_BYTES
    ensures PoolRun(c, events + [Enter(tx, fee)]) == Pool(p.txs[id := tx], p.fees[id := fee], p.totalBytes + TxSize(c, tx))
  {
    assert (events + [Enter(tx, fee)])[..|events|] == events;
    EntersPool(c, p, tx, fee, id);
  }

  /** A submission, the txid it gets, and room for it. */
  ghost predicate Enters(c: Crypto, e: PoolEvent, id: Hash) {
    e.Enter? && Txid(c, e.tx) == id && e.fee >= MIN_FEE && TxSize(c, e.tx) <= 10_000
  }

  lemma TwoEnter(c: Crypto, x: PoolEvent, y: PoolEvent, i: Hash, j: Hash)
    requires Enters(c, x, i) && Enters(c, y, j) && i != j
    ensures PoolRun(c, [x, y]) == Pool(map[i := x.tx][j := y.tx], map[i := x.fee][j := y.fee], TxSize(c, x.tx) + TxSize(c, y.tx))
  {
    var one := Pool(map[i := x.tx], map[i := x.fee], TxSize(c, x.tx));
    OneMoreEnters(c, [], EMPTY_POOL, x.tx, x.fee, i);
    assert [] + [x] == [x];
    OneMoreEnters(c, [x], one, y.tx, y.fee, j);
    assert [x] + [y] == [x, y];
  }

  lemma ThreeEnter(c: Crypto, x: PoolEvent, y: PoolEvent, z: PoolEvent, i: Hash, j: Hash, k: Hash)
    requires Enters(c, x, i) && Enters(c, y, j) && Enters(c, z, k) && i != j && i != k && j != k
    ensures PoolRun(c, [x, y, z]) ==
            Pool(map[i := x.tx][j := y.tx][k := z.tx], map[i := x.fee][j := y.fee][k := z.fee],
                 TxSize(c, x.tx) + TxSize(c, y.tx) + TxSize(c, z.tx))
  {
    TwoEnter(c, x, y, i, j);
    OneMoreEnters(c, [x, y], PoolRun(c, [x, y]), z.tx, z.fee, k);
    assert [x, y] + [z] == [x, y, z];
  }

  lemma CycleRun()
    ensures PoolRun(TagPrimitives(), CycleEvents()) == CyclePool()
  {
    TagFacts(1, 2048);
    TagFacts(2, 2048);
    TagFacts(3, 1024);
    TagsAscend(1, 2);
    TagsAscend(1, 3);
    TagsAscend(2, 3);
    var e := CycleEvents();
    ThreeEnter(TagPrimitives(), e[0], e[1], e[2], TagId(1), TagId(2), TagId(3));
  }

  lemma CycleOrder()
    ensures var c, p := TagPrimitives(), CyclePool();
            && TagId(1) in p.txs && TagId(2) in p.txs && TagId(3) in p.txs
            && Before(c, p, TagId(1), TagId(2)) && Before(c, p, TagId(2), TagId(3)) && Before(c, p, TagId(3), TagId(1))
  {
    var c, p := TagPrimitives(), CyclePool();
    TagFacts(1, 2048);
    TagFacts(2, 2048);
    TagFacts(3, 1024);
    TagsAscend(1, 2);
    TagsAscend(1, 3);
    TagsAscend(2, 3);
    assert SizeFor(c, p, TagId(1)) == 2048 && SizeFor(c, p, TagId(2)) == 2048 && SizeFor(c, p, TagId(3)) == 1024;
    assert FeeFor(p, TagId(1)) == 0x20_0000_0000_0000 && FeeFor(p, TagId(2)) == 0x40_0000_0000_0000;
    assert FeeFor(p, TagId(3)) == 0x20_0000_0000_0000;
  }

  /** Saturation breaks the order in a pool that a run produces: three submissions that each precede the next in a circle. */
  lemma SaturationCycles()
    ensures var c, p := TagPrimitives(), PoolRun(TagPrimitives(), CycleEvents());
            && TagId(1) in p.txs && TagId(2) in p.txs && TagId(3) in p.txs
            && Before(c, p, TagId(1), TagId(2)) && Before(c, p, TagId(2), TagId(3)) && Before(c, p, TagId(3), TagId(1))
            && !Transitive(c, p)
  {
    CycleRun();
    CycleOrder();
    BeforeTrichotomy(TagPrimitives(), CyclePool(), TagId(3), TagId(1));
  }
}
