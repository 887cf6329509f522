/**
 * The local network database: what it admits, who is waiting for what, and when a
 * lookup goes out to the network. Only router infos are modelled. Times are in
 * seconds.
 */
module NetDbStore {
  import opened Bytes
  import opened NetDbLookup

  const ROUTER_INFO_EXPIRATION: nat := 27 * 60 * 60
  const KEEP_ROUTERS: nat := 150

  /** A router info handed to a waiting task. */
  datatype Delivery = Delivery(waiter: nat, ri: RouterInfo)

  /** The database, and a record of what it has done: the key each waiter asked for, the
      deliveries, the lookups sent to the network and the stores that ended one. */
  datatype Db = Db(
    riDs: map<Hash, RouterInfo>, pending: map<Hash, seq<nat>>,
    asked: seq<Hash>, delivered: seq<Delivery>, started: multiset<Hash>, served: multiset<Hash>)

  datatype LookupResult = Local(ri: RouterInfo) | Waits(waiter: nat) | Starts(waiter: nat, ff: RouterInfo) | NotFound

  datatype StoreResult =
    | InvalidKey | BadSignature | WrongNetwork | Expired | PublishedInFuture
    | Stored(replaced: Option<RouterInfo>)

  // ---------- the operations ----------

  function Currency(published: nat, now: nat): (r: Option<StoreResult>)
    ensures r.None? <==> now <= published + ROUTER_INFO_EXPIRATION && published <= now + 120
  {
    if published + ROUTER_INFO_EXPIRATION < now then Some(Expired)
    else if published > now + 2 * 60 then Some(PublishedInFuture)
    else None
  }

  /** Why a router info is refused, if it is. */
  function Refusal(key: Hash, ri: RouterInfo, fromReseed: bool, now: nat): (r: Option<StoreResult>)
  {
    if key != ri.hash then Some(InvalidKey)
    else if !ri.signatureOk then Some(BadSignature)
    else if !ri.networkOk then Some(WrongNetwork)
    else if fromReseed then None
    else Currency(ri.published, now)
  }

  function ToAll(waiters: seq<nat>, ri: RouterInfo): (ds: seq<Delivery>)
    ensures |ds| == |waiters| && forall i :: 0 <= i < |ds| ==> ds[i] == Delivery(waiters[i], ri)
  {
    seq(|waiters|, i requires 0 <= i < |waiters| => Delivery(waiters[i], ri))
  }

  /** The pending entry of a key is taken out and its waiters are given the router info. */
  function Serve(db: Db, key: Hash, ri: RouterInfo): (r: Db)
    requires key in db.pending
  {
    db.(pending := db.pending - {key}, delivered := db.delivered + ToAll(db.pending[key], ri),
        served := db.served + multiset{key})
  }

  /** A new waiter joins those for a key. */
  function AddWaiter(db: Db, key: Hash): (r: Db)
  {
    db.(pending := db.pending[key := ListFor(db, key) + [|db.asked|]], asked := db.asked + [key])
  }

  function ListFor(db: Db, key: Hash): (ws: seq<nat>)
  {
    if key in db.pending then db.pending[key] else []
  }

  /** `store_router_info`. */
  function Store(db: Db, key: Hash, ri: RouterInfo, fromReseed: bool, now: nat): (r: (Db, StoreResult))
  {
    var refusal := Refusal(key, ri, fromReseed, now);
    if refusal.Some? then (db, refusal.value)
    else
      var db1 := if key !in db.pending then db else Serve(db, key, ri);
      (db1.(riDs := db.riDs[key := ri]), Stored(if key in db.riDs then Some(db.riDs[key]) else None))
  }

  /** `lookup_router_info`, given the peer the lookup would go to. */
  function LookUp(db: Db, key: Hash, ff: Option<RouterInfo>): (r: (Db, LookupResult))
  {
    var w := |db.asked|;
    if key in db.riDs then (db, Local(db.riDs[key]))
    else if key in db.pending then (AddWaiter(db, key), Waits(w))
    else
      match ff
      case None => (db, NotFound)
      case Some(peer) =>
        (AddWaiter(db, key).(started := db.started + multiset{key}), Starts(w, peer))
  }

  /** The engine's expiry, which spares peers we are connected to and does nothing
      while few routers are known. */
  function Expire(db: Db, established: set<Hash>, now: nat): (r: Db)
  {
    if |db.riDs| < KEEP_ROUTERS then db
    else
      db.(riDs := map k | k in db.riDs && (db.riDs[k].hash in established || Currency(db.riDs[k].published, now).None?)
                  :: db.riDs[k])
  }

  /** The floodfill nearest to a routing key. */
  ghost predicate IsClosest(riDs: map<Hash, RouterInfo>, rk: Hash, ri: RouterInfo)
  {
    && (exists k :: k in riDs && riDs[k] == ri) && ri.floodfill
    && forall k :: k in riDs && riDs[k].floodfill ==> Metric(ri.hash, rk) <= Metric(riDs[k].hash, rk)
  }

  /** There is one nearest floodfill, as long as router infos are filed under their own
      hashes: every other one is strictly further away. */
  lemma ClosestIsUnique(riDs: map<Hash, RouterInfo>, rk: Hash, ri: RouterInfo, k: Hash)
    requires (forall h :: h in riDs ==> riDs[h].hash == h) && IsClosest(riDs, rk, ri) && k in riDs && riDs[k].floodfill
    ensures riDs[k] == ri || LexLess(XorBytes(ri.hash, rk), XorBytes(riDs[k].hash, rk))
  {
    hide Metric, LexLess;
    MetricOrder(ri.hash, riDs[k].hash, rk);
  }

  class LocalNetworkDatabase {
    var riDs: map<Hash, RouterInfo>
    var pendingRi: map<Hash, seq<nat>>
    ghost var asked: seq<Hash>
    ghost var delivered: seq<Delivery>
    ghost var started: multiset<Hash>
    ghost var served: multiset<Hash>
    var waiters: nat

    ghost predicate Valid()
      reads this
    {
      waiters == |asked|
    }

    ghost function State(): (db: Db)
      reads this
    {
      Db(riDs, pendingRi, asked, delivered, started, served)
    }

    constructor ()
      ensures Valid() && State() == Empty()
    {
      riDs, pendingRi, waiters := map[], map[], 0;
      asked, delivered, started, served := [], [], multiset{}, multiset{};
    }

    /** `select_closest_ff`. */
    method SelectClosestFf(rk: Hash) returns (r: Option<RouterInfo>)
      ensures r.Some? ==> IsClosest(riDs, rk, r.value)
      ensures r.None? ==> forall k :: k in riDs ==> !riDs[k].floodfill
    {
      hide Metric;
      r := None;
      var rest := riDs.Keys;
      while rest != {}
        invariant rest <= riDs.Keys
        invariant r.Some? ==> r.value.floodfill && exists k :: k in riDs && riDs[k] == r.value
        invariant r.Some? ==> forall k :: k in riDs && k !in rest && riDs[k].floodfill ==>
              Metric(r.value.hash, rk) <= Metric(riDs[k].hash, rk)
        invariant r.None? ==> forall k :: k in riDs && k !in rest ==> !riDs[k].floodfill
        decreases |rest|
      {
        var k :| k in rest;
        rest := rest - {k};
        var ri := riDs[k];
        if ri.floodfill && (r.None? || Metric(ri.hash, rk) < Metric(r.value.hash, rk)) {
          r := Some(ri);
        }
      }
    }

    method LookupRouterInfo(key: Hash, rk: Hash, fromPeer: Option<RouterInfo>) returns (r: LookupResult)
      requires Valid()
      modifies this
      ensures Valid() && exists ff: Option<RouterInfo> ::
                && (State(), r) == LookUp(old(State()), key, ff)
                && (fromPeer.Some? ==> ff == fromPeer)
                && (fromPeer.None? && ff.Some? ==> IsClosest(old(riDs), rk, ff.value))
                && (ff.None? ==> fromPeer.None?)
                && (ff.None? && key !in old(riDs) && key !in old(pendingRi) ==>
                      forall k :: k in old(riDs) ==> !old(riDs)[k].floodfill)
    {
      hide IsClosest;
      if key in riDs {
        r := Local(riDs[key]);
        assert (State(), r) == LookUp(old(State()), key, fromPeer);
        return;
      }
      if key in pendingRi {
        r := Waits(waiters);
        pendingRi := pendingRi[key := pendingRi[key] + [waiters]];
        waiters, asked := waiters + 1, asked + [key];
        assert (State(), r) == LookUp(old(State()), key, fromPeer);
        return;
      }
      var ff := fromPeer;
      if ff.None? {
        ff := SelectClosestFf(rk);
      }
      match ff {
        case None => r := NotFound;
        case Some(peer) =>
          r := Starts(waiters, peer);
          pendingRi := pendingRi[key := []];
          pendingRi := pendingRi[key := pendingRi[key] + [waiters]];
          assert pendingRi == AddWaiter(old(State()), key).pending;
          waiters, asked, started := waiters + 1, asked + [key], started + multiset{key};
      }
      assert (State(), r) == LookUp(old(State()), key, ff);
    }

    method StoreRouterInfo(key: Hash, ri: RouterInfo, fromReseed: bool, now: nat) returns (r: StoreResult)
      requires Valid()
      modifies this
      ensures Valid() && (State(), r) == Store(old(State()), key, ri, fromReseed, now)
    {
      if key != ri.hash {
        return InvalidKey;
      }
      if !ri.signatureOk {
        return BadSignature;
      }
      if !ri.networkOk {
        return WrongNetwork;
      }
      if !fromReseed {
        var late := Currency(ri.published, now);
        if late.Some? {
          return late.value;
        }
      }
      if key in pendingRi {
        var waiting := pendingRi[key];
        pendingRi := pendingRi - {key};
        served := served + multiset{key};
        for i := 0 to |waiting|
          modifies this`delivered
          invariant delivered == old(delivered) + ToAll(waiting, ri)[..i]
        {
          delivered := delivered + [Delivery(waiting[i], ri)];
        }
        assert ToAll(waiting, ri)[..|waiting|] == ToAll(waiting, ri);
      }
      r := Stored(if key in riDs then Some(riDs[key]) else None);
      riDs := riDs[key := ri];
    }
  }

  // ---------- runs ----------

  datatype DbEvent =
    | LookupEvent(key: Hash, ff: Option<RouterInfo>)
    | StoreEvent(skey: Hash, ri: RouterInfo, fromReseed: bool, at: nat)
    | ExpireEvent(established: set<Hash>, now: nat)

  function Empty(): (db: Db)
  {
    Db(map[], map[], [], [], multiset{}, multiset{})
  }

  function DbStep(db: Db, e: DbEvent): (r: Db)
  {
    match e
    case LookupEvent(key, ff) => LookUp(db, key, ff).0
    case StoreEvent(key, ri, fromReseed, at) => Store(db, key, ri, fromReseed, at).0
    case ExpireEvent(established, now) => Expire(db, established, now)
  }

  function DbRun(events: seq<DbEvent>): (db: Db)
  {
    if events == [] then Empty() else DbStep(DbRun(events[..|events| - 1]), events[|events| - 1])
  }

  /** A waiter is still in the list for the key it asked for. */
  ghost predicate StillWaiting(db: Db, w: nat)
    requires w < |db.asked|
  {
    db.asked[w] in db.pending && w in db.pending[db.asked[w]]
  }

  /** A waiter has been given a router info. */
  ghost predicate WasGiven(db: Db, w: nat)
  {
    exists i :: 0 <= i < |db.delivered| && db.delivered[i].waiter == w
  }

  /** No key is both stored and pending, and what is stored was admitted. */
  ghost predicate StoreOk(db: Db)
  {
    && (forall k :: k in db.riDs ==>
          k !in db.pending && db.riDs[k].hash == k && db.riDs[k].signatureOk && db.riDs[k].networkOk)
    && (forall k :: db.started[k] == db.served[k] + if k in db.pending then 1 else 0)
  }

  /** The lists hold each waiter once, under the key it asked for. */
  ghost predicate ListsOk(db: Db)
  {
    && (forall k, i :: k in db.pending && 0 <= i < |db.pending[k]| ==>
          db.pending[k][i] < |db.asked| && db.asked[db.pending[k][i]] == k)
    && (forall k, i, j :: k in db.pending && 0 <= i < j < |db.pending[k]| ==> db.pending[k][i] != db.pending[k][j])
  }

  /** A delivery of a validated router info for the key its waiter asked for. */
  ghost predicate DeliveryOk(asked: seq<Hash>, d: Delivery)
  {
    d.waiter < |asked| && d.ri.hash == asked[d.waiter] && d.ri.signatureOk && d.ri.networkOk
  }

  /** Deliveries are of what was asked for, validated, and no waiter gets two. */
  ghost predicate DeliveriesOk(db: Db)
  {
    && (forall i :: 0 <= i < |db.delivered| ==> DeliveryOk(db.asked, db.delivered[i]))
    && (forall i, j :: 0 <= i < j < |db.delivered| ==> db.delivered[i].waiter != db.delivered[j].waiter)
  }

  /** Every waiter is waiting or has been given what it asked for, and not both. */
  ghost predicate Partitioned(db: Db)
  {
    forall w: nat :: w < |db.asked| ==> (StillWaiting(db, w) <==> !WasGiven(db, w))
  }

  ghost predicate DbOk(db: Db)
  {
    StoreOk(db) && ListsOk(db) && DeliveriesOk(db) && Partitioned(db)
  }

  lemma AddLists(db: Db, key: Hash)
    requires ListsOk(db)
    ensures ListsOk(AddWaiter(db, key))
  {}

  lemma AddParts(db: Db, key: Hash)
    requires ListsOk(db) && DeliveriesOk(db) && Partitioned(db)
    ensures Partitioned(AddWaiter(db, key))
  {
    hide ListsOk;
    var r, n := AddWaiter(db, key), |db.asked|;
    forall w: nat | w < |r.asked| ensures StillWaiting(r, w) <==> !WasGiven(r, w) {
      if w == n {
        assert r.pending[key][|ListFor(db, key)|] == n;
      } else {
        assert r.asked[w] == db.asked[w];
        assert StillWaiting(db, w) <==> !WasGiven(db, w);
      }
    }
  }

  lemma LookupKeeps(db: Db, key: Hash, ff: Option<RouterInfo>)
    requires DbOk(db)
    ensures DbOk(LookUp(db, key, ff).0)
  {
    hide ListsOk, Partitioned, WasGiven;
    AddLists(db, key);
    AddParts(db, key);
    var a := AddWaiter(db, key);
    var b := a.(started := db.started + multiset{key});
    SameParts(a, b);
    SameLists(a, b);
  }

  lemma ServeDeliveries(db: Db, key: Hash, ri: RouterInfo)
    requires ListsOk(db) && DeliveriesOk(db) && Partitioned(db) && key in db.pending
    requires ri.hash == key && ri.signatureOk && ri.networkOk
    ensures DeliveriesOk(Serve(db, key, ri))
  {
    var ws := db.pending[key];
    var ds := db.delivered + ToAll(ws, ri);
    forall i, j | 0 <= i < j < |ds| ensures ds[i].waiter != ds[j].waiter {
      if i < |db.delivered| && j >= |db.delivered| {
        var w := ws[j - |db.delivered|];
        assert w in ws && StillWaiting(db, w) && !WasGiven(db, w);
      }
    }
  }

  lemma ServeParts(db: Db, key: Hash, ri: RouterInfo)
    requires ListsOk(db) && Partitioned(db) && key in db.pending
    ensures Partitioned(Serve(db, key, ri))
  {
    var ws := db.pending[key];
    var r := Serve(db, key, ri);
    forall w: nat | w < |r.asked| ensures StillWaiting(r, w) <==> !WasGiven(r, w) {
      assert StillWaiting(db, w) <==> !WasGiven(db, w);
      if w in ws {
        var i :| 0 <= i < |ws| && ws[i] == w;
        assert r.delivered[|db.delivered| + i].waiter == w;
      } else if WasGiven(db, w) {
        var i :| 0 <= i < |db.delivered| && db.delivered[i].waiter == w;
        assert r.delivered[i].waiter == w;
      }
    }
  }

  lemma ServeLists(db: Db, key: Hash, ri: RouterInfo)
    requires ListsOk(db) && key in db.pending
    ensures ListsOk(Serve(db, key, ri))
  {}

  lemma StoreKeeps(db: Db, key: Hash, ri: RouterInfo, fromReseed: bool, now: nat)
    requires DbOk(db)
    ensures DbOk(Store(db, key, ri, fromReseed, now).0)
  {
    hide Currency, ListsOk, DeliveriesOk, Partitioned;
    if Refusal(key, ri, fromReseed, now).None? {
      var r := Store(db, key, ri, fromReseed, now).0;
      if key in db.pending {
        ServeLists(db, key, ri);
        ServeParts(db, key, ri);
        ServeDeliveries(db, key, ri);
        SameParts(Serve(db, key, ri), r);
        SameLists(Serve(db, key, ri), r);
      } else {
        SameParts(db, r);
        SameLists(db, r);
      }
    }
  }

  lemma SameLists(a: Db, b: Db)
    requires b.asked == a.asked && b.pending == a.pending && b.delivered == a.delivered
    ensures ListsOk(a) == ListsOk(b) && DeliveriesOk(a) == DeliveriesOk(b)
  {}

  lemma SameParts(a: Db, b: Db)
    requires Partitioned(a) && b.asked == a.asked && b.pending == a.pending && b.delivered == a.delivered
    ensures Partitioned(b)
  {
    forall w: nat | w < |b.asked| ensures StillWaiting(b, w) <==> !WasGiven(b, w) {
      assert StillWaiting(a, w) <==> !WasGiven(a, w);
    }
  }

  lemma ExpireKeeps(db: Db, established: set<Hash>, now: nat)
    requires DbOk(db)
    ensures DbOk(Expire(db, established, now))
  {
    hide Currency, ListsOk, DeliveriesOk, Partitioned;
    SameParts(db, Expire(db, established, now));
    SameLists(db, Expire(db, established, now));
  }

  lemma {:induction false} DbInvariant(events: seq<DbEvent>)
    ensures DbOk(DbRun(events))
  {
    hide LookUp, Store, Expire;
    if events != [] {
      var es, e := events[..|events| - 1], events[|events| - 1];
      DbInvariant(es);
      var db := DbRun(es);
      match e
      case LookupEvent(key, ff) => LookupKeeps(db, key, ff);
      case StoreEvent(key, ri, fromReseed, at) => StoreKeeps(db, key, ri, fromReseed, at);
      case ExpireEvent(established, now) => ExpireKeeps(db, established, now);
    }
  }

  /** Over every run: no key is both stored and pending; what is stored is filed under
      its own hash, correctly signed and of our network; every task that asked is either
      still waiting or has been given, exactly once, a validated router info for the key it
      asked for; and a second lookup for a key goes to the network only after a store has
      answered the first. */
  lemma WaitersServedOnce(events: seq<DbEvent>)
    ensures var db := DbRun(events);
            && (forall k :: k in db.riDs ==>
                  k !in db.pending && db.riDs[k].hash == k && db.riDs[k].signatureOk && db.riDs[k].networkOk)
            && (forall w: nat :: w < |db.asked| ==> (StillWaiting(db, w) <==> !WasGiven(db, w)))
            && (forall i, j :: 0 <= i < j < |db.delivered| ==> db.delivered[i].waiter != db.delivered[j].waiter)
            && (forall i :: 0 <= i < |db.delivered| ==> DeliveryOk(db.asked, db.delivered[i]))
            && (forall k :: db.started[k] == db.served[k] + if k in db.pending then 1 else 0)
  {
    hide DbRun;
    DbInvariant(events);
  }

  /** What a lookup gets after any run: an admitted router info for the key, or a place
      among those waiting for it that no one else has. */
  lemma LookupAnswers(events: seq<DbEvent>, key: Hash, ff: Option<RouterInfo>)
    ensures var db := DbRun(events);
            var (db', r) := LookUp(db, key, ff);
            && (r.Local? ==> r.ri.hash == key && r.ri.signatureOk && r.ri.networkOk && db' == db)
            && (r.Waits? || r.Starts? ==>
                  r.waiter == |db.asked| && db'.asked == db.asked + [key] && StillWaiting(db', r.waiter)
                  && !WasGiven(db', r.waiter))
            && (r.Starts? <==> db'.started[key] > db.started[key])
            && (key in db.riDs ==> r == Local(db.riDs[key]))
            && (key !in db.riDs && key in db.pending ==> r.Waits?)
            && (key !in db.riDs && key !in db.pending ==>
                  if ff.Some? then r.Starts? && r.ff == ff.value else r == NotFound && db' == db)
  {
    hide DbRun, ListsOk;
    DbInvariant(events);
    var db := DbRun(events);
    AddParts(db, key);
    assert AddWaiter(db, key).pending[key][|ListFor(db, key)|] == |db.asked|;
  }

  /** An event that stores something for a key. */
  predicate Stores(e: DbEvent, key: Hash)
  {
    e.StoreEvent? && e.skey == key && Refusal(e.skey, e.ri, e.fromReseed, e.at).None?
  }

  /** An event that could have put a router info under a key: valid, of our network, and
      either from a reseed or published within 27 hours before and two minutes after. */
  ghost predicate Admits(e: DbEvent, key: Hash, ri: RouterInfo)
  {
    && e.StoreEvent? && e.skey == key && e.ri == ri
    && ri.hash == key && ri.signatureOk && ri.networkOk
    && (e.fromReseed || (e.at <= ri.published + 97_200 && ri.published <= e.at + 120))
  }

  /** Event i admitted the router info now under a key, and none after it admitted another. */
  ghost predicate LastAdmitted(events: seq<DbEvent>, key: Hash, ri: RouterInfo, i: nat)
    requires i < |events|
  {
    Admits(events[i], key, ri) && forall j :: i < j < |events| ==> !Stores(events[j], key)
  }

  /** Where the entry of a key comes from in one step. */
  lemma StoredStep(db: Db, e: DbEvent, key: Hash)
    requires key in DbStep(db, e).riDs
    ensures if Stores(e, key) then Admits(e, key, DbStep(db, e).riDs[key])
            else key in db.riDs && DbStep(db, e).riDs[key] == db.riDs[key]
  {}

  /** Over every run, what is stored under a key is the last router info admitted for it;
      unless it came from a reseed, it was current when it was stored. */
  lemma {:induction false} StoredWasAdmitted(events: seq<DbEvent>, key: Hash)
    requires key in DbRun(events).riDs
    ensures exists i: nat :: i < |events| && LastAdmitted(events, key, DbRun(events).riDs[key], i)
  {
    hide DbStep, Stores, Admits;
    var m := |events| - 1;
    var es, e := events[..m], events[m];
    StoredStep(DbRun(es), e, key);
    if Stores(e, key) {
      assert LastAdmitted(events, key, DbRun(events).riDs[key], m);
    } else {
      StoredWasAdmitted(es, key);
      var i: nat :| i < |es| && LastAdmitted(es, key, DbRun(es).riDs[key], i);
      assert LastAdmitted(events, key, DbRun(events).riDs[key], i);
    }
  }

  /** After any run, a router info is stored if and only if it is admissible, and
      nothing else in the store changes. */
  lemma StoredIffAdmitted(events: seq<DbEvent>, key: Hash, ri: RouterInfo, fromReseed: bool, at: nat)
    ensures var e := StoreEvent(key, ri, fromReseed, at);
            && (Store(DbRun(events), key, ri, fromReseed, at).1.Stored? <==> Admits(e, key, ri))
            && DbRun(events + [e]).riDs
            == if Admits(e, key, ri) then DbRun(events).riDs[key := ri] else DbRun(events).riDs
  {
    var all := events + [StoreEvent(key, ri, fromReseed, at)];
    assert all[..|all| - 1] == events;
  }

  /** After any run, an expiry leaves, once 150 routers are known, only peers we are
      connected to and router infos that are current; and it takes away no other. */
  lemma ExpiryLeavesCurrent(events: seq<DbEvent>, established: set<Hash>, now: nat, key: Hash)
    requires key in DbRun(events).riDs
    ensures var before, after := DbRun(events), DbRun(events + [ExpireEvent(established, now)]);
            var published := before.riDs[key].published;
            key in after.riDs <==>
              || |before.riDs| < 150 || key in established
              || (now <= published + 97_200 && published <= now + 120)
  {
    hide ListsOk, DeliveriesOk, Partitioned;
    DbInvariant(events);
    var all := events + [ExpireEvent(established, now)];
    assert all[..|all| - 1] == events;
  }

  /** Nothing but a store ends a pending lookup: after a lookup for a key has gone out,
      and however long ago it timed out, no other goes out until the router info is
      stored; later tasks only join the wait. */
  lemma {:induction false} PendingUntilStored(before: seq<DbEvent>, after: seq<DbEvent>, key: Hash)
    requires key in DbRun(before).pending && forall i :: 0 <= i < |after| ==> !Stores(after[i], key)
    ensures key in DbRun(before + after).pending && DbRun(before + after).started[key] == DbRun(before).started[key]
  {
    hide DbStep, ListsOk, DeliveriesOk, Partitioned, Stores;
    if after == [] {
      assert before + after == before;
    } else {
      var es := before + after[..|after| - 1];
      PendingUntilStored(before, after[..|after| - 1], key);
      assert (before + after)[..|before + after| - 1] == es;
      DbInvariant(es);
      PendingStep(DbRun(es), after[|after| - 1], key);
    }
  }

  lemma PendingStep(db: Db, e: DbEvent, key: Hash)
    requires StoreOk(db) && key in db.pending && !Stores(e, key)
    ensures key in DbStep(db, e).pending && DbStep(db, e).started[key] == db.started[key]
  {
    hide Currency;
  }
}
