/** The ComponentEndpoint lookup cache: what a rebuild stores, and the numbered map around it. */
module CompEndpointCache {
  import opened Wrappers
  import opened Strings

  /** A row of the component endpoint table; `info` stands for the columns no lookup uses. */
  datatype CompEndpoint = CompEndpoint(id: string, rfEndpointId: string, odataId: string, info: int)

  type Rows = seq<CompEndpoint>

  datatype Cache = Cache(valStore: map<string, CompEndpoint>, keyLookup: map<string, string>)

  const CHILDREN := "children"
  const EmptyCache := Cache(map[], map[])

  function UriKey(epId: string, uri: string): string {
    ToLower(epId + ":" + uri)
  }

  function ChildrenKey(epId: string): string {
    epId + ":" + CHILDREN
  }

  /** The effect of one row on a cache under construction. */
  function AddRow(c: Cache, r: CompEndpoint): Cache {
    var keys := c.keyLookup[UriKey(r.rfEndpointId, r.odataId) := r.id];
    var key2 := ChildrenKey(r.rfEndpointId);
    var list := if key2 in keys then keys[key2] + "," + r.id else r.id;
    Cache(c.valStore[r.id := r], keys[key2 := list])
  }

  function BuildCache(rows: Rows): Cache {
    if rows == [] then EmptyCache else AddRow(BuildCache(rows[..|rows| - 1]), rows[|rows| - 1])
  }

  // ---- What a lookup should answer, read off the table itself ----

  ghost predicate HasId(rows: Rows, id: string) {
    exists r :: r in rows && r.id == id
  }

  /** The primary key of the table. */
  ghost predicate UniqueIds(rows: Rows) {
    forall i, j :: 0 <= i < j < |rows| ==> rows[i].id != rows[j].id
  }

  function ChildIds(rows: Rows, epId: string): seq<string> {
    if rows == [] then []
    else
      var r := rows[|rows| - 1];
      ChildIds(rows[..|rows| - 1], epId) + (if r.rfEndpointId == epId then [r.id] else [])
  }

  /** The id of the last row reachable under a Redfish endpoint and URI, in any capitalization. */
  function IdAtUri(rows: Rows, epId: string, uri: string): Option<string> {
    if rows == [] then None
    else
      var r := rows[|rows| - 1];
      if UriKey(r.rfEndpointId, r.odataId) == UriKey(epId, uri) then Some(r.id)
      else IdAtUri(rows[..|rows| - 1], epId, uri)
  }

  /** Xnames are non-empty and hold neither ',' nor ':'; Redfish URIs start with '/'. */
  predicate WellFormedRow(r: CompEndpoint) {
    && r.id != "" && ',' !in r.id && ':' !in r.rfEndpointId
    && r.odataId != "" && r.odataId[0] == '/'
  }

  ghost predicate WellFormed(rows: Rows) {
    forall r :: r in rows ==> WellFormedRow(r)
  }

  /** By-URI keys and child-list keys never collide, whatever the capitalization. */
  lemma KeysDisjoint(epId: string, uri: string, other: string)
    requires ':' !in epId && ':' !in other && uri != "" && uri[0] == '/'
    ensures UriKey(epId, uri) != ChildrenKey(other)
  {
    ToLowerAppend(epId + ":", uri);
    ToLowerAppend(epId, ":");
    assert UriKey(epId, uri) == ToLower(epId) + [':'] + ToLower(uri);
    assert ToLower(uri)[0] == '/';
    if UriKey(epId, uri) == ChildrenKey(other) {
      FirstSepUnique(ToLower(epId), other, ToLower(uri), CHILDREN, ':');
      assert false;
    }
  }

  lemma ChildrenKeyInjective(a: string, b: string)
    requires ':' !in a && ':' !in b && ChildrenKey(a) == ChildrenKey(b)
    ensures a == b
  {
    FirstSepUnique(a, b, CHILDREN, CHILDREN, ':');
  }

  /** After a rebuild, a value lookup finds exactly the table's row with that id. */
  lemma {:induction false} ValuesAgree(rows: Rows, id: string)
    requires UniqueIds(rows)
    ensures id in BuildCache(rows).valStore <==> HasId(rows, id)
    ensures forall r :: r in rows && r.id == id ==> BuildCache(rows).valStore[id] == r
  {
    if rows != [] {
      var front, last := rows[..|rows| - 1], rows[|rows| - 1];
      assert rows == front + [last];
      ValuesAgree(front, id);
      forall r | r in front ensures r.id != last.id {
        var i :| 0 <= i < |front| && front[i] == r;
        assert rows[i] == r;
      }
      assert HasId(rows, id) <==> HasId(front, id) || last.id == id by {
        assert last in rows;
        if HasId(front, id) {
          var r :| r in front && r.id == id;
          assert r in rows;
        }
      }
    }
  }

  /** After a rebuild, the stored child list of an endpoint is the comma-joined list of the
      ids of its rows in table order, and is present exactly when there is one. */
  lemma {:induction false} ChildrenAgree(rows: Rows, epId: string)
    requires WellFormed(rows) && ':' !in epId
    ensures ChildrenKey(epId) in BuildCache(rows).keyLookup <==> ChildIds(rows, epId) != []
    ensures ChildIds(rows, epId) != [] ==>
              BuildCache(rows).keyLookup[ChildrenKey(epId)] == Join(ChildIds(rows, epId), ',')
  {
    if rows != [] {
      var front, last := rows[..|rows| - 1], rows[|rows| - 1];
      assert last in rows && forall r :: r in front ==> r in rows;
      ChildrenAgree(front, epId);
      KeysDisjoint(last.rfEndpointId, last.odataId, epId);
      if last.rfEndpointId == epId {
        var before := ChildIds(front, epId);
        if before != [] {
          JoinAppend(before, last.id, ',');
        } else {
          assert before + [last.id] == [last.id];
        }
      } else {
        assert ChildIds(rows, epId) == ChildIds(front, epId);
        if ChildrenKey(last.rfEndpointId) == ChildrenKey(epId) {
          ChildrenKeyInjective(last.rfEndpointId, epId);
        }
      }
    }
  }

  /** Splitting the stored list at commas gives back exactly the ids, in order. */
  lemma ChildrenRoundTrip(rows: Rows, epId: string)
    requires WellFormed(rows) && ':' !in epId
    requires ChildrenKey(epId) in BuildCache(rows).keyLookup
    ensures Split(BuildCache(rows).keyLookup[ChildrenKey(epId)], ',') == ChildIds(rows, epId)
  {
    ChildrenAgree(rows, epId);
    ChildIdsAreRowIds(rows, epId);
    SplitJoin(ChildIds(rows, epId), ',');
  }

  lemma {:induction false} ChildIdsAreRowIds(rows: Rows, epId: string)
    ensures forall id :: id in ChildIds(rows, epId) <==>
                           exists r :: r in rows && r.rfEndpointId == epId && r.id == id
  {
    if rows != [] {
      var front, last := rows[..|rows| - 1], rows[|rows| - 1];
      ChildIdsAreRowIds(front, epId);
      forall id ensures id in ChildIds(rows, epId) <==>
                          exists r :: r in rows && r.rfEndpointId == epId && r.id == id
      {
        assert rows == front + [last];
        if exists r :: r in front && r.rfEndpointId == epId && r.id == id {
          var r :| r in front && r.rfEndpointId == epId && r.id == id;
          assert r in rows;
        }
        assert last in rows;
      }
    }
  }

  /** After a rebuild, a URI lookup gives the id of the last row at that endpoint and URI. */
  lemma {:induction false} UrisAgree(rows: Rows, epId: string, uri: string)
    requires WellFormed(rows) && ':' !in epId && uri != "" && uri[0] == '/'
    ensures UriKey(epId, uri) in BuildCache(rows).keyLookup <==> IdAtUri(rows, epId, uri).Some?
    ensures IdAtUri(rows, epId, uri).Some? ==>
              BuildCache(rows).keyLookup[UriKey(epId, uri)] == IdAtUri(rows, epId, uri).value
  {
    if rows != [] {
      var front, last := rows[..|rows| - 1], rows[|rows| - 1];
      assert last in rows && forall r :: r in front ==> r in rows;
      UrisAgree(front, epId, uri);
      KeysDisjoint(epId, uri, last.rfEndpointId);
    }
  }

  // ---- The numbered map ----

  /** The value of a SyncMap: the cached mappings and the number of the last sync. */
  datatype CacheState = CacheState(cache: Cache, syncNum: int)

  /** A thread's answer to "sync unless someone already did since number `num`": the new
      state, whether a rebuild happened and whether it failed. `fetched` is what the database
      returns to a rebuild, None standing for an error. */
  function TrySyncResult(s: CacheState, num: int, fetched: Option<Rows>): (CacheState, bool, bool) {
    if s.syncNum != num then (s, false, false)
    else match fetched
      case None => (s, false, true)
      case Some(rows) => (CacheState(BuildCache(rows), s.syncNum + 1), true, false)
  }

  /** A map of strings to stored values with a secondary string index. The lock of the
      original makes each method atomic; the interleaving of methods is in CacheProtocol. */
  class SyncMap {
    var valStore: map<string, CompEndpoint>
    var keyLookup: map<string, string>
    var syncNum: int

    function State(): CacheState
      reads this
    {
      CacheState(Cache(valStore, keyLookup), syncNum)
    }

    constructor ()
      ensures State() == CacheState(EmptyCache, 0)
    {
      valStore, keyLookup, syncNum := map[], map[], 0;
    }

    method GetSyncNum() returns (num: int)
      ensures num == State().syncNum
    {
      num := syncNum;
    }

    /** The build function of this map: replaces both indexes by ones read from the table,
        or fails before touching either. */
    method Rebuild(fetched: Option<Rows>) returns (failed: bool)
      modifies this`valStore, this`keyLookup
      ensures failed == fetched.None?
      ensures State() == if fetched.None? then old(State())
                         else CacheState(BuildCache(fetched.value), old(syncNum))
    {
      if fetched.None? {
        return true;
      }
      var rows := fetched.value;
      valStore := map[];
      keyLookup := map[];
      for i := 0 to |rows|
        invariant Cache(valStore, keyLookup) == BuildCache(rows[..i])
      {
        var cep := rows[i];
        assert rows[..i + 1][..i] == rows[..i];
        valStore := valStore[cep.id := cep];
        var key := cep.rfEndpointId + ":" + cep.odataId;
        keyLookup := keyLookup[ToLower(key) := cep.id];
        var key2 := cep.rfEndpointId + ":" + CHILDREN;
        if key2 !in keyLookup {
          keyLookup := keyLookup[key2 := cep.id];
        } else {
          var current := keyLookup[key2];
          keyLookup := keyLookup[key2 := current + "," + cep.id];
        }
      }
      assert rows[..|rows|] == rows;
      failed := false;
    }

    /** Rebuilds unless the map was already rebuilt since `num` was read. */
    method TrySync(num: int, fetched: Option<Rows>)
      returns (didUpdate: bool, now: int, failed: bool)
      modifies this
      ensures (State(), didUpdate, failed) == TrySyncResult(old(State()), num, fetched)
      ensures now == syncNum
    {
      if syncNum != num {
        return false, syncNum, false;
      }
      var err := Rebuild(fetched);
      if err {
        return false, syncNum, true;
      }
      syncNum := syncNum + 1;
      return true, syncNum, false;
    }

    /** The primary key stored under a secondary key, or "" when there is none. */
    method LookupKey(queryKey: string) returns (value: string, num: int)
      ensures value == if queryKey in keyLookup then keyLookup[queryKey] else ""
      ensures num == syncNum
    {
      if queryKey !in keyLookup {
        return "", syncNum;
      }
      return keyLookup[queryKey], syncNum;
    }

    method LookupValue(key: string) returns (value: Option<CompEndpoint>, num: int)
      ensures value == if key in valStore then Some(valStore[key]) else None
      ensures num == syncNum
    {
      if key !in valStore {
        return None, syncNum;
      }
      return Some(valStore[key]), syncNum;
    }
  }
}
