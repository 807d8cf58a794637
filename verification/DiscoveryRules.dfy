/** The row of an endpoint over a run of discoveries: what is stored, what is read as orphaned, and
    a discovery that another instance takes over and finishes. */
module DiscoveryRules {
  import opened DiscoveryProtocol

  /** The step writes the row of the endpoint. */
  predicate Writes(s: State, a: Action, e: string)
    requires Enabled(s, a)
  {
    match a
    case InsertEndpoint(x) => x == e
    case DeleteEndpoint(x) => x == e
    case MakeClaim(_, ids, force) => e in ids && (force || s.db[e].status != Started)
    case TakeOver(_, x) => x == e
    case Store(k, _) => k.1 == e && e in s.db
    case Refresh(i) => e in s.insts[i].discMap
    case _ => false
  }

  /** The step marks the endpoint as being discovered. */
  predicate Marks(s: State, a: Action, e: string)
    requires Enabled(s, a)
  {
    Writes(s, a, e) && (a.MakeClaim? || a.TakeOver? || a.Refresh?)
  }

  lemma RowStep(s: State, a: Action, e: string)
    requires Enabled(s, a)
    ensures var s' := Apply(s, a);
            && s.now <= s'.now
            && (!Writes(s, a, e) ==> (e in s'.db <==> e in s.db) && (e in s.db ==> s'.db[e] == s.db[e]))
            && (Writes(s, a, e) && e in s'.db ==> s'.db[e].stamp == s.now)
            && (Marks(s, a, e) ==> e in s'.db && s'.db[e].status == Started)
            && (Writes(s, a, e) && a.Store? ==> e in s'.db && s'.db[e].status == a.result)
  {
  }

  ghost predicate Unwritten(tr: seq<State>, acts: seq<Action>, a: nat, b: nat, e: string)
    requires Run(tr, acts) && b <= |acts|
  {
    forall n :: a <= n < b ==> !Writes(tr[n], acts[n], e)
  }

  lemma {:induction false} RowStays(tr: seq<State>, acts: seq<Action>, a: nat, b: nat, e: string)
    requires Run(tr, acts) && a <= b < |tr| && e in tr[a].db && Unwritten(tr, acts, a, b, e)
    ensures e in tr[b].db && tr[b].db[e] == tr[a].db[e]
  {
    hide Apply, Enabled, Writes;
    if a < b {
      RowStays(tr, acts, a, b - 1, e);
      RowStep(tr[b - 1], acts[b - 1], e);
    }
  }

  lemma {:induction false} StampsGrow(tr: seq<State>, acts: seq<Action>, a: nat, b: nat, e: string)
    requires Run(tr, acts) && a < b < |tr| && Writes(tr[a], acts[a], e)
    ensures tr[a].now <= tr[b].now && (e in tr[b].db ==> tr[a].now <= tr[b].db[e].stamp)
  {
    hide Apply, Enabled, Writes;
    RowStep(tr[b - 1], acts[b - 1], e);
    if a < b - 1 {
      StampsGrow(tr, acts, a, b - 1, e);
    }
  }

  // ---- What is stored ----

  /** A claim obtains just the endpoints asked for that are not being discovered, or all of them by
      force: those are marked as of now and have a claim, of the claiming instance. */
  lemma ClaimObtains(s: State, i: nat, ids: set<string>, force: bool, e: string)
    requires KeysOk(s) && Enabled(s, MakeClaim(i, ids, force))
    ensures var s', got := Apply(s, MakeClaim(i, ids, force)), e in ids && (force || s.db[e].status != Started);
            && s'.db.Keys == s.db.Keys
            && ((s.serial, e) in s'.claims <==> got)
            && (got ==> s'.claims[(s.serial, e)] == Claim(i, Claimed, s.now) && s'.db[e] == Endpoint(Started, s.now))
            && (e in s.db && !got ==> s'.db[e] == s.db[e])
  {
  }

  /** The result that a discovery stores stays in the row until a step writes it again. */
  lemma ResultStays(tr: seq<State>, acts: seq<Action>, a: nat, b: nat)
    requires Run(tr, acts) && a < b < |tr| && acts[a].Store? && acts[a].k.1 in tr[a].db
    requires Unwritten(tr, acts, a + 1, b, acts[a].k.1)
    ensures acts[a].k.1 in tr[b].db && tr[b].db[acts[a].k.1] == Endpoint(acts[a].result, tr[a].now)
  {
    RowStep(tr[a], acts[a], acts[a].k.1);
    RowStays(tr, acts, a + 1, b, acts[a].k.1);
  }

  // ---- What is read as orphaned ----

  /** An endpoint that was marked and that no step has written for half an hour is read as an
      orphan by whichever instance looks. */
  lemma OrphanIsRead(tr: seq<State>, acts: seq<Action>, a: nat, b: nat, e: string)
    requires Run(tr, acts) && a < b < |acts| && Marks(tr[a], acts[a], e) && Unwritten(tr, acts, a + 1, b, e)
    requires acts[b].SyncRead? && tr[b].now >= tr[a].now + 1800
    ensures e in tr[b + 1].insts[acts[b].i].orphans
  {
    RowStep(tr[a], acts[a], e);
    RowStays(tr, acts, a + 1, b, e);
  }

  /** One that was marked less than half an hour ago is not. */
  lemma MarkedIsNotRead(tr: seq<State>, acts: seq<Action>, a: nat, b: nat, e: string)
    requires Run(tr, acts) && a < b < |acts| && Marks(tr[a], acts[a], e)
    requires acts[b].SyncRead? && tr[b].now < tr[a].now + 1800
    ensures e !in tr[b + 1].insts[acts[b].i].orphans
  {
    StampsGrow(tr, acts, a, b, e);
  }

  /** Neither is one whose discovery has stored its result. */
  lemma StoredIsNotRead(tr: seq<State>, acts: seq<Action>, a: nat, b: nat)
    requires Run(tr, acts) && a < b < |acts| && acts[a].Store? && acts[a].k.1 in tr[a].db
    requires Unwritten(tr, acts, a + 1, b, acts[a].k.1) && acts[b].SyncRead?
    ensures acts[a].k.1 !in tr[b + 1].insts[acts[b].i].orphans
  {
    ResultStays(tr, acts, a, b);
  }

  // ---- It happens ----

  function Running(started: nat): Instance {
    Instance(true, map[], started, {}, 0)
  }

  /** Instance 1 claims an endpoint, enters it in its map and crashes. Half an hour later instance 2
      starts, takes the endpoint over, refreshes it after 20 minutes and stores its result. */
  function TakeoverActs(e: string): seq<Action> {
    [Start(1), MakeClaim(1, {e}, false), Add((0, e)), Crash(1), Tick(1800), Start(2), SyncRead(2), TakeOver(2, e),
     Add((1, e)), Tick(1200), Refresh(2), Remove((1, e)), Store((1, e), DiscoverOK)]
  }

  function TakeoverRow(n: nat): Endpoint {
    if n <= 1 then Endpoint(Other(0), 0)
    else if n <= 7 then Endpoint(Started, 0)
    else if n <= 10 then Endpoint(Started, 1800)
    else if n <= 12 then Endpoint(Started, 3000)
    else Endpoint(DiscoverOK, 3000)
  }

  function TakeoverClaims(e: string, n: nat): map<ClaimKey, Claim> {
    if n <= 1 then map[]
    else if n == 2 then map[(0, e) := Claim(1, Claimed, 0)]
    else if n <= 7 || n == 13 then map[(0, e) := Claim(1, Added, 0)]
    else map[(0, e) := Claim(1, Added, 0),
             (1, e) := if n == 8 then Claim(2, Claimed, 1800)
                       else if n <= 11 then Claim(2, Added, 1800)
                       else Claim(2, Removed, 3000)]
  }

  function FirstInstance(e: string, n: nat): Instance {
    Instance(n <= 3, if n <= 2 then map[] else map[e := 1], 0, {}, 0)
  }

  function SecondInstance(e: string, n: nat): Instance {
    Instance(true, if 9 <= n <= 11 then map[e := 1] else map[], if n <= 10 then 1800 else 3000,
             if n == 7 then {e} else {}, if n <= 6 then 0 else 1)
  }

  function TakeoverState(e: string, n: nat): State {
    State(if n <= 4 then 0 else if n <= 9 then 1800 else 3000,
          map[e := TakeoverRow(n)],
          TakeoverClaims(e, n),
          if n <= 1 then 0 else if n <= 7 then 1 else 2,
          if n == 0 then map[] else if n <= 5 then map[1 := FirstInstance(e, n)]
          else map[1 := FirstInstance(e, n), 2 := SecondInstance(e, n)])
  }

  ghost predicate StepsTo(s: State, a: Action, s': State) {
    Enabled(s, a) && Apply(s, a) == s'
  }

  /** The parts in which two states must agree. */
  lemma Agree(s: State, a: Action, s': State)
    requires Enabled(s, a)
    requires var r := Apply(s, a);
             && r.now == s'.now && r.db == s'.db && r.claims == s'.claims && r.serial == s'.serial
             && r.insts == s'.insts
    ensures StepsTo(s, a, s')
  {
  }

  lemma FirstClaim(e: string)
    ensures StepsTo(TakeoverState(e, 1), MakeClaim(1, {e}, false), TakeoverState(e, 2))
  {
    DoClaimOne(e, TakeoverState(e, 1), 1, false, TakeoverRow(1));
  }

  lemma TakingOver(e: string)
    ensures StepsTo(TakeoverState(e, 7), TakeOver(2, e), TakeoverState(e, 8))
  {
    var s, next := TakeoverState(e, 7), TakeoverState(e, 8);
    DoClaimOne(e, s.(insts := next.insts), 2, true, TakeoverRow(7));
    assert {e} - {e} == {} && s.insts[2 := s.insts[2].(orphans := {e} - {e})] == next.insts;
    assert s.claims + map[(1, e) := Claim(2, Claimed, 1800)] == next.claims;
  }

  lemma CrashSteps(e: string, n: nat)
    requires n == 0 || 2 <= n <= 4
    ensures StepsTo(TakeoverState(e, n), TakeoverActs(e)[n], TakeoverState(e, n + 1))
  {
    var s, next := TakeoverState(e, n), TakeoverState(e, n + 1);
    var s' := Apply(s, TakeoverActs(e)[n]);
    assert s'.db == next.db;
    assert s'.claims == next.claims;
    assert s'.insts == next.insts;
    Agree(s, TakeoverActs(e)[n], next);
  }

  lemma ReadSteps(e: string, n: nat)
    requires n == 5 || n == 6
    ensures StepsTo(TakeoverState(e, n), TakeoverActs(e)[n], TakeoverState(e, n + 1))
  {
    var s, next := TakeoverState(e, n), TakeoverState(e, n + 1);
    if n == 6 {
      assert Orphans(s) == {e};
    }
    var s' := Apply(s, TakeoverActs(e)[n]);
    assert s'.db == next.db;
    assert s'.claims == next.claims;
    assert s'.insts == next.insts;
    Agree(s, TakeoverActs(e)[n], next);
  }

  lemma RunSteps(e: string, n: nat)
    requires 8 <= n <= 10
    ensures StepsTo(TakeoverState(e, n), TakeoverActs(e)[n], TakeoverState(e, n + 1))
  {
    var s, next := TakeoverState(e, n), TakeoverState(e, n + 1);
    var s' := Apply(s, TakeoverActs(e)[n]);
    assert s'.db == next.db;
    assert s'.claims == next.claims;
    assert s'.insts == next.insts;
    Agree(s, TakeoverActs(e)[n], next);
  }

  lemma EndSteps(e: string, n: nat)
    requires n == 11 || n == 12
    ensures StepsTo(TakeoverState(e, n), TakeoverActs(e)[n], TakeoverState(e, n + 1))
  {
    var s, next := TakeoverState(e, n), TakeoverState(e, n + 1);
    var s' := Apply(s, TakeoverActs(e)[n]);
    assert s'.db == next.db;
    assert s'.claims == next.claims;
    assert s'.insts == next.insts;
    Agree(s, TakeoverActs(e)[n], next);
  }

  lemma TakeoverStep(e: string, n: nat)
    requires n < 13
    ensures StepsTo(TakeoverState(e, n), TakeoverActs(e)[n], TakeoverState(e, n + 1))
  {
    hide StepsTo;
    if n == 1 {
      FirstClaim(e);
    } else if n == 7 {
      TakingOver(e);
    } else if n <= 4 {
      CrashSteps(e, n);
    } else if n <= 6 {
      ReadSteps(e, n);
    } else if n <= 10 {
      RunSteps(e, n);
    } else {
      EndSteps(e, n);
    }
  }

  /** The endpoint ends as discovered by the second instance; what is left behind is the claim of
      the crashed one. */
  lemma TakenOverIsFinished(e: string) returns (tr: seq<State>)
    ensures Run(tr, TakeoverActs(e)) && tr[0].db == map[e := Endpoint(Other(0), 0)]
    ensures tr[13].db == map[e := Endpoint(DiscoverOK, 3000)] && tr[13].claims == map[(0, e) := Claim(1, Added, 0)]
    ensures 2 in tr[13].insts && tr[13].insts[2] == Instance(true, map[], 3000, {}, 1)
  {
    hide Apply, Enabled;
    var acts := TakeoverActs(e);
    tr := seq(14, n requires 0 <= n < 14 => TakeoverState(e, n));
    forall n | 0 <= n < 13 ensures Enabled(tr[n], acts[n]) && tr[n + 1] == Apply(tr[n], acts[n]) {
      TakeoverStep(e, n);
    }
  }
}
