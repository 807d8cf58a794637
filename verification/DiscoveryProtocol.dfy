/** Discovery of Redfish endpoints by several service instances. The `LastStatus` column of an
    endpoint is used as a lock, the owning instance refreshes its timestamp from the in-memory
    list of its discoveries, and any instance may take over a discovery that looks orphaned. */
module DiscoveryProtocol {

  /** The discovery statuses the code branches on; `Other` stands for the remaining ones. */
  datatype Status =
    | Started
    | DiscoverOK
    | EndpointTypeNotSupported
    | EndpointNotEnabled
    | UnexpectedErrorPreStore
    | StoreFailed
    | Other(code: int)

  /** `LastStatus` and `LastAttempt` of an endpoint row. Times are in seconds. */
  datatype Endpoint = Endpoint(status: Status, stamp: nat)

  /** How far a claimed discovery has got: not yet in the discovery map of its instance, in it,
      or out of it again with its final status not yet stored. */
  datatype Phase = Claimed | Added | Removed

  datatype Claim = Claim(owner: nat, phase: Phase, since: nat)

  /** A claim is identified by the number of the claiming transaction and the endpoint. */
  type ClaimKey = (nat, string)

  /** `refreshed` is the time of the last pass of the updater thread; `orphans` are the
      endpoints the last pass of the sync thread decided to take over, and `readSerial`
      orders that pass against the claims. */
  datatype Instance = Instance(
    alive: bool,
    discMap: map<string, nat>,
    refreshed: nat,
    orphans: set<string>,
    readSerial: nat)

  datatype State = State(
    now: nat,
    db: map<string, Endpoint>,
    claims: map<ClaimKey, Claim>,   // claims whose result is not stored
    serial: nat,
    insts: map<nat, Instance>)

  const MINUTE := 60
  const REFRESH_PERIOD := 20 * MINUTE
  const ORPHAN_AGE := 30 * MINUTE

  // ---- The claiming transaction ----

  /** The endpoints a claim of `ids` obtains: all of them when forced, otherwise those not
      already being discovered. */
  function Obtained(db: map<string, Endpoint>, ids: set<string>, force: bool): set<string>
    requires ids <= db.Keys
  {
    set e | e in ids && (force || db[e].status != Started)
  }

  function MarkStarted(db: map<string, Endpoint>, ids: set<string>, now: nat): map<string, Endpoint> {
    map e | e in db :: if e in ids then Endpoint(Started, now) else db[e]
  }

  // ---- The discovery map ----

  function MapAdd(m: map<string, nat>, id: string): map<string, nat> {
    if id in m then m[id := m[id] + 1] else m[id := 1]
  }

  function MapRemove(m: map<string, nat>, id: string): map<string, nat> {
    if id in m then
      if m[id] <= 1 then m - {id} else m[id := m[id] - 1]
    else m
  }

  // ---- Steps ----

  datatype Action =
    | Tick(seconds: nat)
    | Start(i: nat)
    | Crash(i: nat)
    | InsertEndpoint(e: string)
    | DeleteEndpoint(e: string)
    | MakeClaim(i: nat, ids: set<string>, force: bool)
    | Add(k: ClaimKey)
    | Remove(k: ClaimKey)
    | Store(k: ClaimKey, result: Status)
    | Refresh(i: nat)
    | SyncRead(i: nat)
    | TakeOver(i: nat, e: string)

  predicate Alive(s: State, i: nat) {
    i in s.insts && s.insts[i].alive
  }

  predicate Live(s: State, k: ClaimKey) {
    k in s.claims && Alive(s, s.claims[k].owner)
  }

  predicate Enabled(s: State, a: Action) {
    match a
    case Tick(_) => true
    case Start(i) => i !in s.insts
    case Crash(i) => Alive(s, i)
    case InsertEndpoint(e) => e !in s.db
    case DeleteEndpoint(e) => e in s.db
    case MakeClaim(i, ids, _) => Alive(s, i) && ids <= s.db.Keys
    case Add(k) => Live(s, k) && s.claims[k].phase == Claimed
    case Remove(k) => Live(s, k) && s.claims[k].phase == Added
    case Store(k, result) => Live(s, k) && s.claims[k].phase == Removed && result != Started
    case Refresh(i) => Alive(s, i) && s.insts[i].discMap.Keys <= s.db.Keys
    case SyncRead(i) => Alive(s, i)
    case TakeOver(i, e) => Alive(s, i) && e in s.insts[i].orphans && e in s.db
  }

  function DoClaim(s: State, i: nat, ids: set<string>, force: bool): State
    requires ids <= s.db.Keys
  {
    var got := Obtained(s.db, ids, force);
    var claims := map e | e in got :: (s.serial, e) := Claim(i, Claimed, s.now);
    s.(db := MarkStarted(s.db, got, s.now), claims := s.claims + claims, serial := s.serial + 1)
  }

  function SetMap(s: State, i: nat, m: map<string, nat>): State
    requires i in s.insts
  {
    s.(insts := s.insts[i := s.insts[i].(discMap := m)])
  }

  /** Endpoints marked as being discovered whose last attempt is at least 30 minutes old. */
  function Orphans(s: State): set<string> {
    set e | e in s.db && s.db[e].status == Started && s.now - s.db[e].stamp >= ORPHAN_AGE
  }

  function Apply(s: State, a: Action): State
    requires Enabled(s, a)
  {
    match a
    case Tick(d) => s.(now := s.now + d)
    case Start(i) => s.(insts := s.insts[i := Instance(true, map[], s.now, {}, 0)])
    case Crash(i) => s.(insts := s.insts[i := s.insts[i].(alive := false)])
    case InsertEndpoint(e) => s.(db := s.db[e := Endpoint(Other(0), s.now)])
    case DeleteEndpoint(e) => s.(db := s.db - {e})
    case MakeClaim(i, ids, force) => DoClaim(s, i, ids, force)
    case Add(k) =>
      var c := s.claims[k];
      SetMap(s, c.owner, MapAdd(s.insts[c.owner].discMap, k.1))
        .(claims := s.claims[k := Claim(c.owner, Added, s.now)])
    case Remove(k) =>
      var c := s.claims[k];
      SetMap(s, c.owner, MapRemove(s.insts[c.owner].discMap, k.1))
        .(claims := s.claims[k := Claim(c.owner, Removed, s.now)])
    case Store(k, result) =>
      s.(claims := s.claims - {k},
         db := if k.1 in s.db then s.db[k.1 := Endpoint(result, s.now)] else s.db)
    case Refresh(i) =>
      s.(db := MarkStarted(s.db, Obtained(s.db, s.insts[i].discMap.Keys, true), s.now),
         insts := s.insts[i := s.insts[i].(refreshed := s.now)])
    case SyncRead(i) =>
      s.(insts := s.insts[i := s.insts[i].(orphans := Orphans(s), readSerial := s.serial)])
    case TakeOver(i, e) =>
      DoClaim(s.(insts := s.insts[i := s.insts[i].(orphans := s.insts[i].orphans - {e})]), i, {e}, true)
  }

  ghost predicate Init(s: State) {
    && s.claims == map[] && s.insts == map[]
    && forall e :: e in s.db ==> s.db[e].status != Started
  }

  ghost predicate Run(tr: seq<State>, acts: seq<Action>) {
    && |tr| == |acts| + 1 && Init(tr[0])
    && forall i :: 0 <= i < |acts| ==> Enabled(tr[i], acts[i]) && tr[i + 1] == Apply(tr[i], acts[i])
  }

  // ---- The map counts, and the lock is held by someone ----

  ghost function Running(claims: map<ClaimKey, Claim>, i: nat, e: string): set<ClaimKey> {
    set k | k in claims && k.1 == e && claims[k].owner == i && claims[k].phase == Added
  }

  ghost predicate CountsAt(s: State, i: nat, e: string)
    requires i in s.insts
  {
    var m, n := s.insts[i].discMap, |Running(s.claims, i, e)|;
    if n == 0 then e !in m else e in m && m[e] == n
  }

  /** The discovery map counts exactly the discoveries between their add and their remove. */
  ghost predicate MapCounts(s: State) {
    forall i, e :: i in s.insts ==> CountsAt(s, i, e)
  }

  /** An endpoint is marked as being discovered only while some claim on it is unfinished. */
  ghost predicate LockHeld(s: State) {
    forall e :: e in s.db && s.db[e].status == Started ==> exists k :: k in s.claims && k.1 == e
  }

  ghost predicate KeysOk(s: State) {
    forall k :: k in s.claims ==> k.0 < s.serial && s.claims[k].owner in s.insts
  }

  ghost predicate Inv(s: State) {
    KeysOk(s) && MapCounts(s) && LockHeld(s)
  }

  lemma MapCountsUnchanged(s: State, s': State)
    requires MapCounts(s) && s'.insts.Keys == s.insts.Keys
    requires forall i :: i in s.insts ==> s'.insts[i].discMap == s.insts[i].discMap
    requires forall k :: (k in s.claims && s.claims[k].phase == Added) <==> (k in s'.claims && s'.claims[k].phase == Added)
    requires forall k :: k in s.claims && k in s'.claims ==> s'.claims[k].owner == s.claims[k].owner
    ensures MapCounts(s')
  {
    forall i, e | i in s'.insts ensures CountsAt(s', i, e) {
      assert CountsAt(s, i, e);
      assert Running(s'.claims, i, e) == Running(s.claims, i, e);
    }
  }

  lemma MapCountsAdd(s: State, k: ClaimKey)
    requires KeysOk(s) && MapCounts(s) && Enabled(s, Add(k))
    ensures MapCounts(Apply(s, Add(k)))
  {
    var s' := Apply(s, Add(k));
    var owner := s.claims[k].owner;
    forall i, e | i in s'.insts ensures CountsAt(s', i, e) {
      assert CountsAt(s, i, e);
      var r, r' := Running(s.claims, i, e), Running(s'.claims, i, e);
      if i == owner && e == k.1 {
        assert r' == r + {k} && k !in r;
      } else {
        assert r' == r;
      }
    }
  }

  lemma MapCountsRemove(s: State, k: ClaimKey)
    requires KeysOk(s) && MapCounts(s) && Enabled(s, Remove(k))
    ensures MapCounts(Apply(s, Remove(k)))
  {
    var s' := Apply(s, Remove(k));
    var owner := s.claims[k].owner;
    forall i, e | i in s'.insts ensures CountsAt(s', i, e) {
      assert CountsAt(s, i, e);
      var r, r' := Running(s.claims, i, e), Running(s'.claims, i, e);
      if i == owner && e == k.1 {
        assert r' == r - {k} && k in r;
        assert |r'| == |r| - 1;
      } else {
        assert r' == r;
      }
    }
  }

  lemma ClaimKeepsInv(s: State, i: nat, ids: set<string>, force: bool)
    requires Inv(s) && i in s.insts && ids <= s.db.Keys
    ensures Inv(DoClaim(s, i, ids, force))
  {
    var s' := DoClaim(s, i, ids, force);
    MapCountsUnchanged(s, s');
    forall e | e in s'.db && s'.db[e].status == Started
      ensures exists k :: k in s'.claims && k.1 == e
    {
      if e in Obtained(s.db, ids, force) {
        assert (s.serial, e) in s'.claims;
      } else {
        var k :| k in s.claims && k.1 == e;
        assert k in s'.claims;
      }
    }
  }

  lemma RefreshKeepsInv(s: State, i: nat)
    requires Inv(s) && Enabled(s, Refresh(i))
    ensures Inv(Apply(s, Refresh(i)))
  {
    var s' := Apply(s, Refresh(i));
    MapCountsUnchanged(s, s');
    forall e | e in s'.db && s'.db[e].status == Started
      ensures exists k :: k in s'.claims && k.1 == e
    {
      if e in s.insts[i].discMap {
        assert CountsAt(s, i, e);
        var k :| k in Running(s.claims, i, e);
        assert k in s'.claims;
      } else {
        var k :| k in s.claims && k.1 == e;
        assert k in s'.claims;
      }
    }
  }

  lemma StoreKeepsInv(s: State, k: ClaimKey, result: Status)
    requires Inv(s) && Enabled(s, Store(k, result))
    ensures Inv(Apply(s, Store(k, result)))
  {
    var s' := Apply(s, Store(k, result));
    MapCountsUnchanged(s, s');
    forall e | e in s'.db && s'.db[e].status == Started
      ensures exists k' :: k' in s'.claims && k'.1 == e
    {
      var k' :| k' in s.claims && k'.1 == e;
      assert k' in s'.claims;
    }
  }

  lemma StartKeepsInv(s: State, i: nat)
    requires Inv(s) && Enabled(s, Start(i))
    ensures Inv(Apply(s, Start(i)))
  {
    var s' := Apply(s, Start(i));
    forall j, e | j in s'.insts ensures CountsAt(s', j, e) {
      if j == i {
        assert Running(s'.claims, i, e) == {};
      } else {
        assert CountsAt(s, j, e);
      }
    }
    assert LockHeld(s') by { assert s'.db == s.db && s'.claims == s.claims; }
  }

  lemma ClaimsKeptKeepInv(s: State, s': State)
    requires Inv(s) && s'.insts.Keys == s.insts.Keys && s'.serial == s.serial
    requires forall i :: i in s.insts ==> s'.insts[i].discMap == s.insts[i].discMap
    requires s'.claims == s.claims
    requires forall e :: e in s'.db && s'.db[e].status == Started ==> e in s.db && s.db[e].status == Started
    ensures Inv(s')
  {
    MapCountsUnchanged(s, s');
  }

  lemma PhaseKeepsLockHeld(s: State, s': State)
    requires KeysOk(s) && LockHeld(s) && s'.db == s.db && s'.claims.Keys == s.claims.Keys
    ensures LockHeld(s')
  {
    forall e | e in s'.db && s'.db[e].status == Started
      ensures exists k :: k in s'.claims && k.1 == e
    {
      var k :| k in s.claims && k.1 == e;
      assert k in s'.claims;
    }
  }

  lemma InvStep(s: State, a: Action)
    requires Inv(s) && Enabled(s, a)
    ensures Inv(Apply(s, a))
  {
    var s' := Apply(s, a);
    match a
    case Add(k) =>
      MapCountsAdd(s, k);
      PhaseKeepsLockHeld(s, s');
    case Remove(k) =>
      MapCountsRemove(s, k);
      PhaseKeepsLockHeld(s, s');
    case MakeClaim(i, ids, force) => ClaimKeepsInv(s, i, ids, force);
    case TakeOver(i, e) =>
      var mid := s.(insts := s.insts[i := s.insts[i].(orphans := s.insts[i].orphans - {e})]);
      ClaimsKeptKeepInv(s, mid);
      ClaimKeepsInv(mid, i, {e}, true);
    case Refresh(i) => RefreshKeepsInv(s, i);
    case Store(k, result) => StoreKeepsInv(s, k, result);
    case Start(i) => StartKeepsInv(s, i);
    case _ => ClaimsKeptKeepInv(s, s');
  }

  lemma {:induction false} InvHolds(tr: seq<State>, acts: seq<Action>, i: nat)
    requires Run(tr, acts) && i < |tr|
    ensures Inv(tr[i])
  {
    if i > 0 {
      InvHolds(tr, acts, i - 1);
      InvStep(tr[i - 1], acts[i - 1]);
    }
  }

  /** With any claims, forced or not, and refreshes of any instance: an endpoint marked as
      being discovered has a claim whose result is not stored yet. */
  lemma StartedOnlyWhileUnfinished(tr: seq<State>, acts: seq<Action>, i: nat, e: string)
    requires Run(tr, acts) && i < |tr| && e in tr[i].db && tr[i].db[e].status == Started
    ensures exists k :: k in tr[i].claims && k.1 == e
  {
    InvHolds(tr, acts, i);
  }

  /** A refresh marks only endpoints of discoveries that its own instance is running, so it
      never revives a finished one. */
  lemma RefreshMarksOnlyRunning(tr: seq<State>, acts: seq<Action>, i: nat, e: string)
    requires Run(tr, acts) && i < |acts| && acts[i].Refresh?
    requires e in tr[i].db && tr[i + 1].db[e] != tr[i].db[e]
    ensures exists k :: k in tr[i].claims && k.1 == e && tr[i].claims[k].owner == acts[i].i
                        && tr[i].claims[k].phase == Added
  {
    InvHolds(tr, acts, i);
    var s, inst := tr[i], acts[i].i;
    assert CountsAt(s, inst, e);
    var k :| k in Running(s.claims, inst, e);
  }

  /** A refresh claims all entries of the map or none. Once an endpoint in the map of an instance
      is deleted, the instance refreshes none of its discoveries until the endpoint is back or
      its own discovery leaves the map. */
  lemma {:induction false} DeletedEntryStopsRefreshes(tr: seq<State>, acts: seq<Action>, j: nat, i: nat, inst: nat, e: string)
    requires Run(tr, acts) && j <= i < |acts|
    requires inst in tr[j].insts && e in tr[j].insts[inst].discMap && e !in tr[j].db
    requires forall m :: j <= m < i ==>
               acts[m] != InsertEndpoint(e) && !(acts[m].Remove? && acts[m].k.1 == e && tr[m].claims[acts[m].k].owner == inst)
    ensures inst in tr[i].insts && e in tr[i].insts[inst].discMap && e !in tr[i].db
    ensures acts[i] != Refresh(inst) && tr[i].insts[inst].refreshed == tr[j].insts[inst].refreshed
  {
    if j < i {
      DeletedEntryStopsRefreshes(tr, acts, j, i - 1, inst, e);
      assert tr[i - 1 + 1] == Apply(tr[i - 1], acts[i - 1]);
      DeletedEntryStays(tr[i - 1], acts[i - 1], inst, e);
    }
  }

  lemma DeletedEntryStays(s: State, a: Action, inst: nat, e: string)
    requires Enabled(s, a) && inst in s.insts && e in s.insts[inst].discMap && e !in s.db && a != Refresh(inst)
    requires a != InsertEndpoint(e) && !(a.Remove? && a.k.1 == e && s.claims[a.k].owner == inst)
    ensures var s' := Apply(s, a);
            && inst in s'.insts && e in s'.insts[inst].discMap && e !in s'.db
            && s'.insts[inst].refreshed == s.insts[inst].refreshed
  {
  }

  // ---- The status column as a lock ----

  /** No endpoint that is marked as being discovered is claimed by force, taken over or deleted. */
  predicate SparesMarked(s: State, a: Action)
    requires Enabled(s, a)
  {
    match a
    case MakeClaim(_, ids, force) => force ==> forall e :: e in ids ==> s.db[e].status != Started
    case TakeOver(_, e) => s.db[e].status != Started
    case DeleteEndpoint(e) => s.db[e].status != Started
    case _ => true
  }

  /** At most one unfinished claim per endpoint, and an endpoint is marked exactly while it has one. */
  ghost predicate LockIsExact(s: State) {
    && (forall k, k' :: k in s.claims && k' in s.claims && k.1 == k'.1 ==> k == k')
    && (forall e :: e in s.db && s.db[e].status == Started <==> exists k :: k in s.claims && k.1 == e)
  }

  ghost predicate ExclusiveInv(s: State) {
    && KeysOk(s)
    && (forall k, k' :: k in s.claims && k' in s.claims && k.1 == k'.1 ==> k == k')
    && (forall k :: k in s.claims ==> k.1 in s.db && s.db[k.1].status == Started)
  }

  lemma ExclusiveIsExact(s: State)
    requires Inv(s)
    ensures ExclusiveInv(s) <==> LockIsExact(s)
  {
    if LockIsExact(s) {
      forall k | k in s.claims ensures k.1 in s.db && s.db[k.1].status == Started {}
    }
  }

  lemma ExclusiveClaim(s: State, i: nat, ids: set<string>, force: bool)
    requires ExclusiveInv(s) && i in s.insts && ids <= s.db.Keys
    requires force ==> forall e :: e in ids ==> s.db[e].status != Started
    ensures ExclusiveInv(DoClaim(s, i, ids, force))
  {
    var s' := DoClaim(s, i, ids, force);
    var got := Obtained(s.db, ids, force);
    forall k | k in s'.claims ensures k in s.claims || (k.0 == s.serial && k.1 in got) {}
    forall k, k' | k in s'.claims && k' in s'.claims && k.1 == k'.1 ensures k == k' {
      assert k in s.claims <==> k.1 !in got;
    }
  }

  lemma ExclusiveStore(s: State, k: ClaimKey, result: Status)
    requires ExclusiveInv(s) && Enabled(s, Store(k, result))
    ensures ExclusiveInv(Apply(s, Store(k, result)))
  {
    var s' := Apply(s, Store(k, result));
    forall k' | k' in s'.claims ensures k' in s.claims && k'.1 != k.1 {}
  }

  /** Steps that keep the claims and unmark no endpoint. */
  lemma ExclusiveKept(s: State, s': State)
    requires ExclusiveInv(s) && s'.claims.Keys == s.claims.Keys && s'.serial == s.serial
    requires forall k :: k in s'.claims ==> s'.claims[k].owner in s'.insts
    requires forall e :: e in s.db && s.db[e].status == Started ==> e in s'.db && s'.db[e].status == Started
    ensures ExclusiveInv(s')
  {
    forall k | k in s'.claims ensures k in s.claims {}
  }

  lemma ExclusiveStep(s: State, a: Action)
    requires ExclusiveInv(s) && Enabled(s, a) && SparesMarked(s, a)
    ensures ExclusiveInv(Apply(s, a))
  {
    var s' := Apply(s, a);
    match a
    case MakeClaim(i, ids, force) => ExclusiveClaim(s, i, ids, force);
    case TakeOver(i, e) =>
      var mid := s.(insts := s.insts[i := s.insts[i].(orphans := s.insts[i].orphans - {e})]);
      ExclusiveKept(s, mid);
      ExclusiveClaim(mid, i, {e}, true);
    case Store(k, result) => ExclusiveStore(s, k, result);
    case _ => ExclusiveKept(s, s');
  }

  /** A forced claim of a marked endpoint is its second one. */
  lemma ForcedClaimIsSecond(s: State, i: nat, ids: set<string>, e: string)
    requires Inv(s) && i in s.insts && ids <= s.db.Keys && e in ids && s.db[e].status == Started
    ensures !ExclusiveInv(DoClaim(s, i, ids, true))
  {
    var s' := DoClaim(s, i, ids, true);
    var k :| k in s.claims && k.1 == e;
    assert e in Obtained(s.db, ids, true);
    assert k in s'.claims && (s.serial, e) in s'.claims && k != (s.serial, e);
  }

  lemma SparingIsNeeded(s: State, a: Action)
    requires Inv(s) && Enabled(s, a) && !SparesMarked(s, a)
    ensures !ExclusiveInv(Apply(s, a))
  {
    match a
    case MakeClaim(i, ids, _) =>
      var e :| e in ids && s.db[e].status == Started;
      ForcedClaimIsSecond(s, i, ids, e);
    case TakeOver(i, e) =>
      var mid := s.(insts := s.insts[i := s.insts[i].(orphans := s.insts[i].orphans - {e})]);
      ClaimsKeptKeepInv(s, mid);
      ForcedClaimIsSecond(mid, i, {e}, e);
    case DeleteEndpoint(e) =>
      var k :| k in s.claims && k.1 == e;
      assert k in Apply(s, a).claims;
  }

  lemma SparedIfExclusive(s: State, a: Action)
    requires Inv(s) && Enabled(s, a)
    ensures ExclusiveInv(Apply(s, a)) ==> SparesMarked(s, a)
  {
    if !SparesMarked(s, a) {
      SparingIsNeeded(s, a);
    }
  }

  lemma {:induction false} ExclusiveHolds(tr: seq<State>, acts: seq<Action>, i: nat)
    requires Run(tr, acts) && i < |tr| && forall j :: 0 <= j < |acts| ==> SparesMarked(tr[j], acts[j])
    ensures ExclusiveInv(tr[i])
  {
    if i > 0 {
      ExclusiveHolds(tr, acts, i - 1);
      ExclusiveStep(tr[i - 1], acts[i - 1]);
    }
  }

  /** The status column is a lock throughout a run if and only if no step forces, takes over or
      deletes an endpoint that is marked. */
  lemma ClaimsAreExclusive(tr: seq<State>, acts: seq<Action>)
    requires Run(tr, acts)
    ensures (forall i :: 0 <= i < |tr| ==> LockIsExact(tr[i])) <==>
            (forall j :: 0 <= j < |acts| ==> SparesMarked(tr[j], acts[j]))
  {
    hide Apply, ExclusiveInv, LockIsExact, Inv, SparesMarked, Enabled;
    forall i | 0 <= i < |tr| ensures ExclusiveInv(tr[i]) <==> LockIsExact(tr[i]) {
      InvHolds(tr, acts, i);
      ExclusiveIsExact(tr[i]);
    }
    if forall j :: 0 <= j < |acts| ==> SparesMarked(tr[j], acts[j]) {
      forall i | 0 <= i < |tr| ensures LockIsExact(tr[i]) {
        ExclusiveHolds(tr, acts, i);
      }
    }
    if forall i :: 0 <= i < |tr| ==> LockIsExact(tr[i]) {
      forall j | 0 <= j < |acts| ensures SparesMarked(tr[j], acts[j]) {
        InvHolds(tr, acts, j);
        assert LockIsExact(tr[j + 1]);
        SparedIfExclusive(tr[j], acts[j]);
      }
    }
  }

  // ---- Timed safety of takeovers ----

  /** Bounds on delays: from a claim to its add, of a refresh past its period, and from a
      remove to the store. */
  datatype Delays = Delays(toAdd: nat, refresh: nat, toStore: nat)

  /** The bounds hold so far: every live discovery and every live updater is on time. */
  ghost predicate Timely(s: State, d: Delays) {
    && (forall k :: Live(s, k) && s.claims[k].phase == Claimed ==> s.now <= s.claims[k].since + d.toAdd)
    && (forall k :: Live(s, k) && s.claims[k].phase == Removed ==> s.now <= s.claims[k].since + d.toStore)
    && (forall i :: Alive(s, i) ==> s.now <= s.insts[i].refreshed + REFRESH_PERIOD + d.refresh)
  }

  /** What the timestamp of a marked endpoint says about a live claim on it. */
  ghost predicate FreshClaim(s: State, d: Delays, k: ClaimKey)
    requires Live(s, k) && k.1 in s.db
  {
    var c, stamp := s.claims[k], s.db[k.1].stamp;
    match c.phase
    case Claimed => c.since <= stamp
    case Added => s.insts[c.owner].refreshed <= stamp + d.toAdd
    case Removed => c.since <= stamp + d.toAdd + REFRESH_PERIOD + d.refresh
  }

  ghost predicate ClocksOk(s: State) {
    && (forall e :: e in s.db ==> s.db[e].stamp <= s.now)
    && (forall k :: k in s.claims ==> s.claims[k].since <= s.now)
    && (forall i :: i in s.insts ==> s.insts[i].refreshed <= s.now)
  }

  ghost predicate TimedInv(s: State, d: Delays) {
    && ClocksOk(s)
    && forall k :: Live(s, k) && k.1 in s.db && s.db[k.1].status == Started ==> FreshClaim(s, d, k)
  }

  lemma ClocksStep(s: State, a: Action)
    requires ClocksOk(s) && Enabled(s, a)
    ensures ClocksOk(Apply(s, a))
  {
  }

  /** Where the claims of a step come from. */
  lemma ClaimOrigin(s: State, a: Action, k: ClaimKey)
    requires KeysOk(s) && Enabled(s, a) && k in Apply(s, a).claims
    ensures k in s.claims || (k.0 == s.serial && Apply(s, a).claims[k].phase == Claimed &&
                              Apply(s, a).claims[k].since == s.now && k.1 in Apply(s, a).db && Apply(s, a).db[k.1].stamp == s.now)
    ensures k in s.claims && Live(Apply(s, a), k) && s.claims[k].owner in s.insts ==> Live(s, k)
  {
  }

  lemma TimedStep(s: State, a: Action, d: Delays)
    requires Inv(s) && TimedInv(s, d) && Timely(s, d) && Enabled(s, a)
    ensures TimedInv(Apply(s, a), d)
  {
    hide Apply, Timely, MapCounts, LockHeld;
    var s' := Apply(s, a);
    ClocksStep(s, a);
    forall k | Live(s', k) && k.1 in s'.db && s'.db[k.1].status == Started
      ensures FreshClaim(s', d, k)
    {
      ClaimOrigin(s, a, k);
      if k in s.claims {
        TimedStepAt(s, a, d, k);
      }
    }
  }

  lemma TimedStepAt(s: State, a: Action, d: Delays, k: ClaimKey)
    requires Inv(s) && TimedInv(s, d) && Timely(s, d) && Enabled(s, a) && Live(s, k)
    requires Live(Apply(s, a), k) && k.1 in Apply(s, a).db && Apply(s, a).db[k.1].status == Started
    ensures FreshClaim(Apply(s, a), d, k)
  {
    if a.Refresh? {
      assert CountsAt(s, a.i, k.1);
      if s.claims[k].owner == a.i && s.claims[k].phase == Added {
        assert k in Running(s.claims, a.i, k.1);
      }
    }
  }

  lemma {:induction false} TimedHolds(tr: seq<State>, acts: seq<Action>, d: Delays, i: nat)
    requires Run(tr, acts) && i < |tr|
    requires forall e :: e in tr[0].db ==> tr[0].db[e].stamp <= tr[0].now
    requires forall j :: 0 <= j < i ==> Timely(tr[j], d)
    ensures TimedInv(tr[i], d)
  {
    if i > 0 {
      TimedHolds(tr, acts, d, i - 1);
      InvHolds(tr, acts, i - 1);
      TimedStep(tr[i - 1], acts[i - 1], d);
    }
  }

  /** If the delays total under ten minutes, a sync pass of any instance never decides to take
      over an endpoint whose discovery still has a live owner. */
  lemma SyncSparesLiveDiscoveries(tr: seq<State>, acts: seq<Action>, d: Delays, i: nat, k: ClaimKey)
    requires Run(tr, acts) && i < |acts| && acts[i].SyncRead?
    requires forall e :: e in tr[0].db ==> tr[0].db[e].stamp <= tr[0].now
    requires forall j :: 0 <= j <= i ==> Timely(tr[j], d)
    requires d.toAdd + d.refresh + d.toStore < 10 * MINUTE
    requires Live(tr[i], k)
    ensures k.1 !in tr[i + 1].insts[acts[i].i].orphans
  {
    TimedHolds(tr, acts, d, i);
  }

  // ---- From the decision to the takeover ----

  /** A live claim on an endpoint some instance is about to take over was made after that
      instance decided. */
  ghost predicate DecidedInv(s: State) {
    KeysOk(s) &&
    forall i, k :: Alive(s, i) && Live(s, k) && k.1 in s.insts[i].orphans ==> s.insts[i].readSerial <= k.0
  }

  ghost predicate ReadsOk(s: State) {
    forall i :: i in s.insts ==> s.insts[i].readSerial <= s.serial
  }

  /** A step leaves the decisions of an instance as they are, or carries one out, or is its
      next pass. */
  lemma DecisionOrigin(s: State, a: Action, i: nat)
    requires Enabled(s, a) && i in Apply(s, a).insts
    ensures var inst := Apply(s, a).insts[i];
            || (i in s.insts && inst.orphans <= s.insts[i].orphans && inst.readSerial == s.insts[i].readSerial
                && (inst.alive ==> s.insts[i].alive))
            || (a.SyncRead? && inst.orphans == Orphans(s) && inst.readSerial == s.serial)
            || (i !in s.insts && inst.orphans == {} && inst.readSerial == 0)
    ensures Apply(s, a).serial >= s.serial
  {
    hide Orphans, MapAdd, MapRemove, MarkStarted;
  }

  lemma DecidedStep(s: State, a: Action)
    requires DecidedInv(s) && ReadsOk(s) && Enabled(s, a) && KeysOk(Apply(s, a))
    requires a.SyncRead? ==> forall k :: Live(s, k) ==> k.1 !in Orphans(s)
    ensures DecidedInv(Apply(s, a)) && ReadsOk(Apply(s, a))
  {
    hide Apply, Orphans, Enabled;
    var s' := Apply(s, a);
    forall j | j in s'.insts ensures s'.insts[j].readSerial <= s'.serial {
      DecisionOrigin(s, a, j);
    }
    forall j, k | Alive(s', j) && Live(s', k) && k.1 in s'.insts[j].orphans
      ensures s'.insts[j].readSerial <= k.0
    {
      DecisionOrigin(s, a, j);
      ClaimOrigin(s, a, k);
    }
  }

  lemma {:induction false} DecidedHolds(tr: seq<State>, acts: seq<Action>, d: Delays, i: nat)
    requires Run(tr, acts) && i < |tr|
    requires forall e :: e in tr[0].db ==> tr[0].db[e].stamp <= tr[0].now
    requires forall j :: 0 <= j < i ==> Timely(tr[j], d)
    requires d.toAdd + d.refresh + d.toStore < 10 * MINUTE
    ensures DecidedInv(tr[i]) && ReadsOk(tr[i])
  {
    if i > 0 {
      DecidedHolds(tr, acts, d, i - 1);
      InvHolds(tr, acts, i);
      hide DecidedInv, ReadsOk, Timely, MapCounts, LockHeld, Orphans;
      var s, a := tr[i - 1], acts[i - 1];
      if a.SyncRead? {
        forall k | Live(s, k) ensures k.1 !in Orphans(s) {
          SyncSparesLiveDiscoveries(tr, acts, d, i - 1, k);
        }
      }
      DecidedStep(s, a);
    }
  }

  /** When the takeover is carried out, the only live discovery it can override is one claimed
      after the decision: the race between two instances that read the same orphan. */
  lemma TakeOverHitsOnlyLaterClaims(tr: seq<State>, acts: seq<Action>, d: Delays, i: nat, k: ClaimKey)
    requires Run(tr, acts) && i < |acts| && acts[i].TakeOver?
    requires forall e :: e in tr[0].db ==> tr[0].db[e].stamp <= tr[0].now
    requires forall j :: 0 <= j < i ==> Timely(tr[j], d)
    requires d.toAdd + d.refresh + d.toStore < 10 * MINUTE
    requires Live(tr[i], k) && k.1 == acts[i].e
    ensures tr[i].insts[acts[i].i].readSerial <= k.0
  {
    DecidedHolds(tr, acts, d, i);
  }

  // ---- The race happens ----

  /** A state of the example run: the row and claims of its one endpoint, and its instances. */
  function At(e: string, now: nat, row: Endpoint, claims: seq<Claim>, insts: map<nat, Instance>): State {
    State(now, map[e := row], Numbered(e, claims), |claims|, insts)
  }

  function Numbered(e: string, claims: seq<Claim>): map<ClaimKey, Claim> {
    if claims == [] then map[]
    else var n := |claims| - 1; Numbered(e, claims[..n])[(n, e) := claims[n]]
  }

  function Inst(alive: bool, started: nat, orphans: set<string>, readSerial: nat): Instance {
    Instance(alive, map[], started, orphans, readSerial)
  }

  /** Instance 1 claims the endpoint and crashes; half an hour later instances 2 and 3 start,
      both read the orphan and both take it over. */
  function Example(e: string, n: nat): (State, Action) {
    var one, dead, late := Inst(true, 0, {}, 0), Inst(false, 0, {}, 0), Inst(true, ORPHAN_AGE, {}, 0);
    var read, done := Inst(true, ORPHAN_AGE, {e}, 1), Inst(true, ORPHAN_AGE, {}, 1);
    var idle, marked, again := Endpoint(Other(0), 0), Endpoint(Started, 0), Endpoint(Started, ORPHAN_AGE);
    var first, second, third := Claim(1, Claimed, 0), Claim(2, Claimed, ORPHAN_AGE), Claim(3, Claimed, ORPHAN_AGE);
    match n
    case 0 => (At(e, 0, idle, [], map[]), Start(1))
    case 1 => (At(e, 0, idle, [], map[1 := one]), MakeClaim(1, {e}, false))
    case 2 => (At(e, 0, marked, [first], map[1 := one]), Crash(1))
    case 3 => (At(e, 0, marked, [first], map[1 := dead]), Tick(ORPHAN_AGE))
    case 4 => (At(e, ORPHAN_AGE, marked, [first], map[1 := dead]), Start(2))
    case 5 => (At(e, ORPHAN_AGE, marked, [first], map[1 := dead, 2 := late]), Start(3))
    case 6 => (At(e, ORPHAN_AGE, marked, [first], map[1 := dead, 2 := late, 3 := late]), SyncRead(2))
    case 7 => (At(e, ORPHAN_AGE, marked, [first], map[1 := dead, 2 := read, 3 := late]), SyncRead(3))
    case 8 => (At(e, ORPHAN_AGE, marked, [first], map[1 := dead, 2 := read, 3 := read]), TakeOver(2, e))
    case 9 => (At(e, ORPHAN_AGE, again, [first, second], map[1 := dead, 2 := done, 3 := read]), TakeOver(3, e))
    case _ => (At(e, ORPHAN_AGE, again, [first, second, third], map[1 := dead, 2 := done, 3 := done]), Tick(0))
  }

  lemma DoClaimOne(e: string, s: State, i: nat, force: bool, row: Endpoint)
    requires s.db == map[e := row] && (force || row.status != Started)
    ensures DoClaim(s, i, {e}, force) ==
            s.(db := map[e := Endpoint(Started, s.now)],
               claims := s.claims + map[(s.serial, e) := Claim(i, Claimed, s.now)],
               serial := s.serial + 1)
  {
    ObtainedOne(e, row, s.now, force);
    hide Obtained, MarkStarted;
    SingleClaim(s.serial, e, Claim(i, Claimed, s.now));
  }

  lemma ObtainedOne(e: string, row: Endpoint, now: nat, force: bool)
    requires force || row.status != Started
    ensures Obtained(map[e := row], {e}, force) == {e}
    ensures MarkStarted(map[e := row], {e}, now) == map[e := Endpoint(Started, now)]
  {
  }

  /** A claim of the one endpoint, when it succeeds. */
  lemma ClaimOne(e: string, s: State, i: nat, force: bool, row: Endpoint, claims: seq<Claim>)
    requires s == At(e, s.now, row, claims, s.insts) && (force || row.status != Started)
    ensures DoClaim(s, i, {e}, force) ==
            At(e, s.now, Endpoint(Started, s.now), claims + [Claim(i, Claimed, s.now)], s.insts)
  {
    hide DoClaim, Numbered;
    DoClaimOne(e, s, i, force, row);
    NumberedAppend(e, claims, Claim(i, Claimed, s.now));
  }

  lemma SingleClaim(serial: nat, e: string, c: Claim)
    ensures (map x | x in {e} :: (serial, x) := c) == map[(serial, e) := c]
  {
  }

  lemma NumberedAppend(e: string, claims: seq<Claim>, c: Claim)
    ensures Numbered(e, claims + [c]) == Numbered(e, claims) + map[(|claims|, e) := c]
  {
    assert (claims + [c])[..|claims|] == claims;
  }

  lemma ExampleClaims(e: string, n: nat)
    requires n in {1, 8, 9}
    ensures Enabled(Example(e, n).0, Example(e, n).1) && Apply(Example(e, n).0, Example(e, n).1) == Example(e, n + 1).0
  {
    var s, first := Example(e, n).0, Claim(1, Claimed, 0);
    assert {e} - {e} == {};
    if n == 1 {
      ClaimOne(e, s, 1, false, Endpoint(Other(0), 0), []);
      assert [] + [first] == [first];
    } else if n == 8 {
      ClaimOne(e, s.(insts := Example(e, 9).0.insts), 2, true, Endpoint(Started, 0), [first]);
      assert [first] + [Claim(2, Claimed, ORPHAN_AGE)] == [first, Claim(2, Claimed, ORPHAN_AGE)];
    } else {
      var second, third := Claim(2, Claimed, ORPHAN_AGE), Claim(3, Claimed, ORPHAN_AGE);
      ClaimOne(e, s.(insts := Example(e, 10).0.insts), 3, true, Endpoint(Started, ORPHAN_AGE), [first, second]);
      assert [first, second] + [third] == [first, second, third];
    }
  }

  lemma ExampleReads(e: string, n: nat)
    requires n in {6, 7}
    ensures Enabled(Example(e, n).0, Example(e, n).1) && Apply(Example(e, n).0, Example(e, n).1) == Example(e, n + 1).0
  {
    assert Orphans(Example(e, n).0) == {e};
  }

  lemma ExampleSteps(e: string, n: nat)
    requires n < 10
    ensures Enabled(Example(e, n).0, Example(e, n).1) && Apply(Example(e, n).0, Example(e, n).1) == Example(e, n + 1).0
  {
    if n in {1, 8, 9} {
      ExampleClaims(e, n);
    } else if n in {6, 7} {
      ExampleReads(e, n);
    }
  }

  lemma AtTimely(e: string, now: nat, row: Endpoint, claims: seq<Claim>, insts: map<nat, Instance>)
    requires forall i :: i in insts && insts[i].alive ==> insts[i].refreshed == now
    requires forall n :: 0 <= n < |claims| && claims[n].owner in insts && insts[claims[n].owner].alive ==> claims[n].since == now
    ensures Timely(At(e, now, row, claims, insts), Delays(0, 0, 0))
  {
    NumberedValues(e, claims);
    var s := At(e, now, row, claims, insts);
    forall k | Live(s, k) ensures s.claims[k].since == now {}
  }

  lemma ExampleTimely(e: string, n: nat)
    requires n <= 10
    ensures Timely(Example(e, n).0, Delays(0, 0, 0))
  {
    var first, second, third := Claim(1, Claimed, 0), Claim(2, Claimed, ORPHAN_AGE), Claim(3, Claimed, ORPHAN_AGE);
    var claims := if n <= 1 then [] else if n <= 8 then [first] else if n == 9 then [first, second] else [first, second, third];
    var s := Example(e, n).0;
    AtTimely(e, s.now, s.db[e], claims, s.insts);
  }

  lemma {:induction false} NumberedValues(e: string, claims: seq<Claim>)
    ensures forall k :: k in Numbered(e, claims) ==> k.0 < |claims| && Numbered(e, claims)[k] == claims[k.0]
  {
    if claims != [] {
      NumberedValues(e, claims[..|claims| - 1]);
    }
  }

  /** Without any delay at all, two instances can read the same orphan of a crashed one, and
      the second takeover then overrides the live discovery of the first. */
  lemma TwoTakeoversCanRace(e: string) returns (tr: seq<State>, acts: seq<Action>, i: nat, k: ClaimKey)
    ensures Run(tr, acts) && i < |acts| && acts[i].TakeOver?
    ensures forall j :: 0 <= j < |tr| ==> Timely(tr[j], Delays(0, 0, 0))
    ensures Live(tr[i], k) && k.1 == acts[i].e && tr[i].claims[k].owner != acts[i].i
  {
    tr := seq(11, (n: nat) => Example(e, n).0);
    acts := seq(10, (n: nat) => Example(e, n).1);
    forall j | 0 <= j < 10 ensures Enabled(tr[j], acts[j]) && tr[j + 1] == Apply(tr[j], acts[j]) {
      ExampleSteps(e, j);
    }
    forall j | 0 <= j < |tr| ensures Timely(tr[j], Delays(0, 0, 0)) {
      ExampleTimely(e, j);
    }
    i, k := 9, (1, e);
    assert acts[9] == Example(e, 9).1 && tr[9] == Example(e, 9).0;
    assert tr[0] == Example(e, 0).0;
  }

  // ---- Deleting an endpoint under discovery ----

  /** An instance claims an endpoint, the endpoint is deleted and posted again, and the instance
      claims it again. */
  function Recreated(e: string, n: nat): (State, Action) {
    var insts := map[1 := Inst(true, 0, {}, 0)];
    var idle, marked, claim := Endpoint(Other(0), 0), Endpoint(Started, 0), Claim(1, Claimed, 0);
    match n
    case 0 => (At(e, 0, idle, [], map[]), Start(1))
    case 1 => (At(e, 0, idle, [], insts), MakeClaim(1, {e}, false))
    case 2 => (At(e, 0, marked, [claim], insts), DeleteEndpoint(e))
    case 3 => (At(e, 0, marked, [claim], insts).(db := map[]), InsertEndpoint(e))
    case 4 => (At(e, 0, idle, [claim], insts), MakeClaim(1, {e}, false))
    case _ => (At(e, 0, marked, [claim, claim], insts), Tick(0))
  }

  lemma RecreatedSteps(e: string, n: nat)
    requires n < 5
    ensures Enabled(Recreated(e, n).0, Recreated(e, n).1)
    ensures Apply(Recreated(e, n).0, Recreated(e, n).1) == Recreated(e, n + 1).0
  {
    var s, idle, claim := Recreated(e, n).0, Endpoint(Other(0), 0), Claim(1, Claimed, 0);
    if n == 1 {
      ClaimOne(e, s, 1, false, idle, []);
      assert [] + [claim] == [claim];
    } else if n == 4 {
      ClaimOne(e, s, 1, false, idle, [claim]);
      assert [claim] + [claim] == [claim, claim];
    } else if n == 2 {
      assert map[e := Endpoint(Started, 0)] - {e} == map[];
    } else if n == 3 {
      assert (map[])[e := idle] == map[e := idle];
    }
  }

  lemma RecreatedEnds(e: string)
    ensures Init(Recreated(e, 0).0)
    ensures var s := Recreated(e, 5).0; (0, e) in s.claims && (1, e) in s.claims && e in s.db
  {
    var claim := Claim(1, Claimed, 0);
    NumberedAppend(e, [claim], claim);
    NumberedAppend(e, [], claim);
    assert [] + [claim] == [claim] && [claim] + [claim] == [claim, claim];
  }

  lemma RecreatedIsUnforced(e: string, n: nat)
    ensures var a := Recreated(e, n).1; !(a.MakeClaim? && a.force) && !a.TakeOver?
  {
  }

  /** Without any force or takeover, deleting an endpoint under discovery and posting it again
      lets it be claimed twice. */
  lemma DeletingBreaksTheLock(e: string) returns (tr: seq<State>, acts: seq<Action>)
    ensures Run(tr, acts) && |tr| == 6
    ensures forall j :: 0 <= j < |acts| ==> !(acts[j].MakeClaim? && acts[j].force) && !acts[j].TakeOver?
    ensures (0, e) in tr[5].claims && (1, e) in tr[5].claims && e in tr[5].db
  {
    hide Recreated, Apply, Enabled, Init;
    tr := seq(6, (n: nat) => Recreated(e, n).0);
    acts := seq(5, (n: nat) => Recreated(e, n).1);
    forall j | 0 <= j < 5 ensures Enabled(tr[j], acts[j]) && tr[j + 1] == Apply(tr[j], acts[j]) {
      RecreatedSteps(e, j);
    }
    forall j | 0 <= j < 5 ensures !(acts[j].MakeClaim? && acts[j].force) && !acts[j].TakeOver? {
      RecreatedIsUnforced(e, j);
    }
    RecreatedEnds(e);
    assert tr[0] == Recreated(e, 0).0 && tr[5] == Recreated(e, 5).0;
  }
}
