/** One service instance carrying out discoveries: the discovery map, the claiming transaction,
    and the order of the last two steps on every exit path. */
module DiscoveryService {
  import opened Wrappers
  import opened DiscoveryProtocol

  /** What an instance does to the state it shares, in order. */
  datatype Event =
    | EnteredMap(id: string)
    | LeftMap(id: string)
    | TriedStore(id: string, result: Status, ok: bool)

  /** What the endpoint and the database turn out to do during one discovery. `errors` says
      which of the three fallible generators of database entries fail fatally. */
  datatype Fate = Fate(lastStatus: Status, errors: (bool, bool, bool), storeOk: bool, retryOk: bool)

  /** The statuses a discovery tries to store, in order, and whether each store succeeds. */
  function Stores(f: Fate): seq<(Status, bool)> {
    if f.lastStatus != DiscoverOK then [(f.lastStatus, f.storeOk)]
    else if f.errors.0 || f.errors.1 || f.errors.2 then [(UnexpectedErrorPreStore, f.storeOk)]
    else if f.storeOk then [(DiscoverOK, true)]
    else [(DiscoverOK, false), (StoreFailed, f.retryOk)]
  }

  function StoreEvents(id: string, stores: seq<(Status, bool)>): seq<Event> {
    seq(|stores|, i requires 0 <= i < |stores| => TriedStore(id, stores[i].0, stores[i].1))
  }

  /** The row an endpoint ends with: the last store that succeeded, if any. */
  function AfterStores(db: map<string, Endpoint>, id: string, stores: seq<(Status, bool)>, now: nat)
    : (r: map<string, Endpoint>)
    ensures r.Keys == db.Keys
  {
    if stores == [] then db
    else
      var n := |stores| - 1;
      var before: map<string, Endpoint> := AfterStores(db, id, stores[..n], now);
      if stores[n].1 && id in before then before[id := Endpoint(stores[n].0, now)] else before
  }

  /** The generators of database entries all succeed, or fail in a way that can be skipped. */
  predicate Generated(f: Fate) {
    !f.errors.0 && !f.errors.1 && !f.errors.2
  }

  /** How the row of an endpoint is left by a discovery, status by status. */
  predicate RightlyEnded(before: Endpoint, after: Endpoint, f: Fate, now: nat) {
    && (before.status != DiscoverOK ==>
          (after.status == DiscoverOK <==> f.lastStatus == DiscoverOK && Generated(f) && f.storeOk))
    && (f.lastStatus != DiscoverOK && f.storeOk ==> after == Endpoint(f.lastStatus, now))
    && (f.lastStatus == DiscoverOK && !Generated(f) && f.storeOk ==> after == Endpoint(UnexpectedErrorPreStore, now))
    && (f.lastStatus == DiscoverOK && Generated(f) && f.storeOk ==> after == Endpoint(DiscoverOK, now))
    && (f.lastStatus == DiscoverOK && Generated(f) && !f.storeOk && f.retryOk ==> after == Endpoint(StoreFailed, now))
    && (!f.storeOk && (f.lastStatus != DiscoverOK || !Generated(f) || !f.retryOk) ==> after == before)
  }

  /** The stores of a discovery leave the row so, and touch no other row; a second store is tried
      exactly after the final store of all data has failed. */
  lemma StoresEndRightly(db: map<string, Endpoint>, id: string, f: Fate, now: nat)
    ensures var after := AfterStores(db, id, Stores(f), now);
            && after.Keys == db.Keys && (forall other :: other in db && other != id ==> after[other] == db[other])
            && (id in db ==> RightlyEnded(db[id], after[id], f, now))
    ensures |StoreEvents(id, Stores(f))| == if f.lastStatus == DiscoverOK && Generated(f) && !f.storeOk then 2 else 1
  {
    var stores := Stores(f);
    assert AfterStores(db, id, [], now) == db;
    assert stores[..0] == [];
    if |stores| == 2 {
      assert stores[..1][..0] == [];
    }
  }

  predicate NoDuplicates(ids: seq<string>) {
    forall i, j :: 0 <= i < j < |ids| ==> ids[i] != ids[j]
  }

  function AsSet(ids: seq<string>): set<string> {
    set id | id in ids
  }

  lemma {:induction false} DistinctCardinality(ids: seq<string>)
    ensures |AsSet(ids)| <= |ids|
    ensures |AsSet(ids)| == |ids| <==> NoDuplicates(ids)
  {
    if ids != [] {
      var front, last := ids[..|ids| - 1], ids[|ids| - 1];
      DistinctCardinality(front);
      assert ids == front + [last];
      assert AsSet(ids) == AsSet(front) + {last};
      if last in front {
        var i :| 0 <= i < |front| && front[i] == last;
        assert ids[i] == ids[|ids| - 1];
        assert AsSet(ids) == AsSet(front);
      } else if NoDuplicates(front) {
        assert forall i :: 0 <= i < |front| ==> front[i] in front;
      }
    }
  }

  class Service {
    var discMap: map<string, nat>
    var db: map<string, Endpoint>
    ghost var log: seq<Event>

    method DiscoveryMapAdd(id: string)
      modifies this`discMap, this`log
      ensures discMap == MapAdd(old(discMap), id)
      ensures log == old(log) + [EnteredMap(id)]
    {
      if id in discMap {
        var ref := discMap[id];
        discMap := discMap[id := ref + 1];
      } else {
        discMap := discMap[id := 1];
      }
      log := log + [EnteredMap(id)];
    }

    method DiscoveryMapRemove(id: string)
      modifies this`discMap, this`log
      ensures discMap == MapRemove(old(discMap), id)
      ensures log == old(log) + [LeftMap(id)]
    {
      if id in discMap {
        var ref := discMap[id];
        if ref <= 1 {
          discMap := discMap - {id};
        } else {
          discMap := discMap[id := ref - 1];
        }
      }
      log := log + [LeftMap(id)];
    }

    /** The rows with the given ids, each once, in any order. */
    method GetRFEndpoints(ids: seq<string>) returns (reps: seq<string>)
      ensures NoDuplicates(reps) && AsSet(reps) == AsSet(ids) * db.Keys
    {
      reps := [];
      var rest := AsSet(ids) * db.Keys;
      while rest != {}
        invariant NoDuplicates(reps)
        invariant AsSet(reps) + rest == AsSet(ids) * db.Keys && AsSet(reps) !! rest
      {
        var id :| id in rest;
        assert id !in AsSet(reps);
        assert AsSet(reps + [id]) == AsSet(reps) + {id};
        reps := reps + [id];
        rest := rest - {id};
      }
    }

    /** The claiming transaction: obtains the endpoints that may be discovered and marks them,
        or fails without effect when an id is unknown or repeated. */
    method UpdateRFEndpointForDiscover(ids: seq<string>, force: bool, now: nat)
      returns (claimed: Option<seq<string>>)
      modifies this`db
      ensures claimed.None? <==> !(NoDuplicates(ids) && AsSet(ids) <= old(db).Keys)
      ensures claimed.None? ==> db == old(db)
      ensures claimed.Some? ==>
                && NoDuplicates(claimed.value)
                && AsSet(claimed.value) == Obtained(old(db), AsSet(ids), force)
                && db == MarkStarted(old(db), AsSet(claimed.value), now)
    {
      var reps := GetRFEndpoints(ids);
      DistinctCardinality(ids);
      DistinctCardinality(reps);
      if |reps| != |ids| {
        assert !(NoDuplicates(ids) && AsSet(ids) <= db.Keys) by {
          if AsSet(ids) <= db.Keys {
            assert AsSet(ids) * db.Keys == AsSet(ids);
          }
        }
        return None;
      }
      assert AsSet(reps) == AsSet(ids) && NoDuplicates(ids) by {
        SubsetCardinality(AsSet(reps), AsSet(ids));
      }
      var modEPs := [];
      for i := 0 to |reps|
        invariant NoDuplicates(modEPs) && AsSet(reps) <= db.Keys
        invariant forall id :: id in modEPs <==> id in AsSet(reps) && id in reps[..i] && (force || db[id].status != Started)
      {
        assert reps[i] in AsSet(reps) && reps[i] !in reps[..i];
        if force || db[reps[i]].status != Started {
          modEPs := modEPs + [reps[i]];
        }
        assert reps[..i + 1] == reps[..i] + [reps[i]];
      }
      assert reps[..|reps|] == reps;
      assert AsSet(modEPs) == Obtained(db, AsSet(ids), force);
      if |modEPs| > 0 {
        db := MarkStarted(db, AsSet(modEPs), now);
      } else {
        assert MarkStarted(db, {}, now) == db;
      }
      return Some(modEPs);
    }

    /** Tries to store the status of an endpoint. */
    method UpdateRFEndpoint(id: string, result: Status, ok: bool, now: nat)
      modifies this`db, this`log
      ensures db == if ok && id in old(db) then old(db)[id := Endpoint(result, now)] else old(db)
      ensures log == old(log) + [TriedStore(id, result, ok)]
    {
      if ok && id in db {
        db := db[id := Endpoint(result, now)];
      }
      log := log + [TriedStore(id, result, ok)];
    }

    /** The end of a discovery. Whatever happened, the endpoint leaves the discovery map
        exactly once, and does so before the first attempt to store a status. */
    method UpdateFromRfEndpoint(id: string, fate: Fate, now: nat)
      modifies this
      ensures discMap == MapRemove(old(discMap), id)
      ensures db == AfterStores(old(db), id, Stores(fate), now)
      ensures id in old(db) ==> RightlyEnded(old(db)[id], db[id], fate, now)
      ensures log == old(log) + [LeftMap(id)] + StoreEvents(id, Stores(fate))
    {
      ghost var stores := Stores(fate);
      StoresEndRightly(db, id, fate, now);
      hide RightlyEnded;
      var lastStatus := fate.lastStatus;
      if lastStatus == EndpointTypeNotSupported || lastStatus == EndpointNotEnabled {
        DiscoveryMapRemove(id);
        UpdateRFEndpoint(id, lastStatus, fate.storeOk, now);
        assert stores[..0] == [];
        return;
      } else if lastStatus != DiscoverOK {
        DiscoveryMapRemove(id);
        UpdateRFEndpoint(id, lastStatus, fate.storeOk, now);
        assert stores[..0] == [];
        return;
      }
      if fate.errors.0 {
        lastStatus := UnexpectedErrorPreStore;
      }
      if fate.errors.1 {
        lastStatus := UnexpectedErrorPreStore;
      }
      if fate.errors.2 {
        lastStatus := UnexpectedErrorPreStore;
      }
      if lastStatus != DiscoverOK {
        DiscoveryMapRemove(id);
        UpdateRFEndpoint(id, lastStatus, fate.storeOk, now);
        assert stores[..0] == [];
        return;
      }
      DiscoveryMapRemove(id);
      UpdateRFEndpoint(id, DiscoverOK, fate.storeOk, now);
      assert stores[..1][..0] == [] && stores[..0] == [];
      assert AfterStores(old(db), id, stores[..0], now) == old(db);
      assert AfterStores(old(db), id, stores[..1], now) == db;
      assert |stores| == 1 ==> stores[..1] == stores;
      if !fate.storeOk {
        UpdateRFEndpoint(id, StoreFailed, fate.retryOk, now);
      }
    }

    /** A claimed discovery, from entering the map to its last store. */
    method DoDiscovery(id: string, fate: Fate, now: nat)
      requires id in discMap ==> discMap[id] > 0
      modifies this
      ensures discMap == old(discMap)
      ensures db == AfterStores(old(db), id, Stores(fate), now)
      ensures id in old(db) ==> RightlyEnded(old(db)[id], db[id], fate, now)
      ensures log == old(log) + [EnteredMap(id), LeftMap(id)] + StoreEvents(id, Stores(fate))
    {
      DiscoveryMapAdd(id);
      UpdateFromRfEndpoint(id, fate, now);
    }
  }

  lemma SubsetCardinality(a: set<string>, b: set<string>)
    requires a <= b && |a| >= |b|
    ensures a == b
  {
    assert |b - a| == |b| - |a|;
  }

  /** Entering the map and leaving it again restores it, at any count. */
  lemma LeavingUndoesEntering(m: map<string, nat>, id: string)
    requires id in m ==> m[id] > 0
    ensures MapRemove(MapAdd(m, id), id) == m
  {
  }

  /** When some store succeeds, the row ends with a status other than being discovered; so
      the lock is released on every exit path unless every store failed. */
  lemma StoredStatusReleasesLock(db: map<string, Endpoint>, id: string, fate: Fate, now: nat)
    requires id in db && fate.lastStatus != Started
    ensures var stores := Stores(fate);
            var row := AfterStores(db, id, stores, now)[id];
            if exists i :: 0 <= i < |stores| && stores[i].1
            then row.status != Started && row.stamp == now
            else row == db[id]
  {
    var stores := Stores(fate);
    assert AfterStores(db, id, [], now) == db;
    assert stores[..0] == [];
    if |stores| == 2 {
      assert stores[..1][..0] == [];
      assert stores[1].1 == fate.retryOk;
    } else {
      assert stores[0].1 ==> exists i :: 0 <= i < |stores| && stores[i].1;
    }
  }
}
