/** Component locks and reservations: each operation is one serial transaction over the
    component and reservation tables, processed rigidly (all or nothing) or flexibly. */
module ComponentLocks {
  import opened Wrappers

  datatype Comp = Comp(disabled: bool, locked: bool)

  /** A reservation row; without an expiration it does not expire. */
  datatype Reservation = Reservation(expires: Option<int>, key: string)

  datatype Reason = Disabled | Unlocked | Locked | Reserved | NotFound | ServerError

  datatype LockError = ErrNotFound | ErrDisabled | ErrUnlocked | ErrLocked | ErrReserved | ErrMissingKey | ErrServer

  datatype Failure = Failure(id: string, reason: Reason)

  datatype Outcome = Outcome(success: seq<string>, failure: seq<Failure>)

  /** A component id and the reservation key given for it. */
  datatype LockKey = LockKey(id: string, key: string)

  function ErrorOf(r: Reason): LockError {
    match r
    case Disabled => ErrDisabled
    case Unlocked => ErrUnlocked
    case Locked => ErrLocked
    case Reserved => ErrReserved
    case NotFound => ErrNotFound
    case ServerError => ErrServer
  }

  function FailedIds(fs: seq<Failure>): seq<string> {
    seq(|fs|, i requires 0 <= i < |fs| => fs[i].id)
  }

  predicate Distinct(ids: seq<string>) {
    forall i, j :: 0 <= i < j < |ids| ==> ids[i] != ids[j]
  }

  /** Every selected id is in exactly one of the two lists, once. */
  predicate Partitions(o: Outcome, ids: seq<string>) {
    multiset(o.success) + multiset(FailedIds(o.failure)) == multiset(ids)
  }

  // ---- Sorting ids by what is wrong with them ----

  /** Ids without a problem, in order. */
  function Passing(ids: seq<string>, problem: string -> Option<Reason>): seq<string> {
    if ids == [] then []
    else
      var n := |ids| - 1;
      Passing(ids[..n], problem) + (if problem(ids[n]).None? then [ids[n]] else [])
  }

  function Failing(ids: seq<string>, problem: string -> Option<Reason>): seq<Failure> {
    if ids == [] then []
    else
      var n := |ids| - 1;
      Failing(ids[..n], problem) + (if problem(ids[n]).Some? then [Failure(ids[n], problem(ids[n]).value)] else [])
  }

  lemma FailedAppend(a: seq<Failure>, b: seq<Failure>)
    ensures multiset(FailedIds(a + b)) == multiset(FailedIds(a)) + multiset(FailedIds(b))
  {
    assert FailedIds(a + b) == FailedIds(a) + FailedIds(b);
  }

  lemma FailedOne(f: Failure)
    ensures multiset(FailedIds([f])) == multiset{f.id}
  {
    assert FailedIds([f]) == [f.id];
  }

  lemma {:induction false} SortedPartition(ids: seq<string>, problem: string -> Option<Reason>)
    ensures Partitions(Outcome(Passing(ids, problem), Failing(ids, problem)), ids)
  {
    if ids != [] {
      var n := |ids| - 1;
      assert ids == ids[..n] + [ids[n]];
      SortedPartition(ids[..n], problem);
      if problem(ids[n]).Some? {
        FailedAppend(Failing(ids[..n], problem), [Failure(ids[n], problem(ids[n]).value)]);
        FailedOne(Failure(ids[n], problem(ids[n]).value));
        assert Passing(ids, problem) == Passing(ids[..n], problem);
      } else {
        assert Failing(ids, problem) == Failing(ids[..n], problem);
      }
    }
  }

  lemma {:induction false} PassingMeans(ids: seq<string>, problem: string -> Option<Reason>)
    ensures forall id :: id in Passing(ids, problem) <==> id in ids && problem(id).None?
    ensures forall f :: f in Failing(ids, problem) <==> f.id in ids && problem(f.id) == Some(f.reason)
    ensures |Passing(ids, problem)| + |Failing(ids, problem)| == |ids|
    ensures Distinct(ids) ==> Distinct(Passing(ids, problem))
  {
    if ids != [] {
      var n := |ids| - 1;
      assert ids == ids[..n] + [ids[n]];
      PassingMeans(ids[..n], problem);
    }
  }

  /** The problem of the first id that has one. */
  function FirstProblem(ids: seq<string>, problem: string -> Option<Reason>): Option<Reason> {
    if ids == [] then None
    else if problem(ids[0]).Some? then problem(ids[0])
    else FirstProblem(ids[1..], problem)
  }

  lemma {:induction false} FirstProblemAt(ids: seq<string>, i: nat, problem: string -> Option<Reason>)
    requires i < |ids| && problem(ids[i]).Some? && Failing(ids[..i], problem) == []
    ensures FirstProblem(ids, problem) == problem(ids[i])
  {
    PassingMeans(ids[..i], problem);
    assert forall j :: 0 <= j < i && problem(ids[j]).Some? ==> Failure(ids[j], problem(ids[j]).value) in Failing(ids[..i], problem) by {
      assert forall j :: 0 <= j < i ==> ids[..i][j] == ids[j];
    }
    SkipGood(ids, i, problem);
  }

  lemma {:induction false} SkipGood(ids: seq<string>, i: nat, problem: string -> Option<Reason>)
    requires i < |ids| && problem(ids[i]).Some? && forall j :: 0 <= j < i ==> problem(ids[j]).None?
    ensures FirstProblem(ids, problem) == problem(ids[i])
  {
    if i > 0 {
      SkipGood(ids[1..], i - 1, problem);
    }
  }

  lemma {:induction false} NoFirstProblem(ids: seq<string>, problem: string -> Option<Reason>)
    requires forall id :: id in ids ==> problem(id).None?
    ensures FirstProblem(ids, problem) == None
  {
    if ids != [] {
      NoFirstProblem(ids[1..], problem);
    }
  }

  lemma SortStep(ids: seq<string>, i: nat, problem: string -> Option<Reason>)
    requires i < |ids|
    ensures Passing(ids[..i + 1], problem) == Passing(ids[..i], problem) + (if problem(ids[i]).None? then [ids[i]] else [])
    ensures Failing(ids[..i + 1], problem) ==
            Failing(ids[..i], problem) + (if problem(ids[i]).Some? then [Failure(ids[i], problem(ids[i]).value)] else [])
  {
    assert ids[..i + 1][..i] == ids[..i];
  }

  lemma NothingSorted(problem: string -> Option<Reason>)
    ensures Passing([], problem) == [] && Failing([], problem) == []
  {
  }

  /** A report about ids: each is listed once, as a success if it has no problem and otherwise
      as a failure with its problem for a reason. */
  ghost predicate SortedBy(o: Outcome, ids: seq<string>, problem: string -> Option<Reason>) {
    && Partitions(o, ids)
    && (forall id :: id in o.success <==> id in ids && problem(id).None?)
    && (forall f :: f in o.failure ==> f.id in ids && problem(f.id) == Some(f.reason))
  }

  /** Sorting out one problem and then another among the rest. */
  lemma SortTwice(ids: seq<string>, p: string -> Option<Reason>, q: string -> Option<Reason>,
                  both: string -> Option<Reason>)
    requires forall id :: id in ids ==> both(id) == if p(id).Some? then p(id) else q(id)
    ensures SortedBy(Outcome(Passing(Passing(ids, p), q), Failing(ids, p) + Failing(Passing(ids, p), q)), ids, both)
  {
    hide Passing, Failing;
    var passing := Passing(ids, p);
    SortedPartition(ids, p);
    SortedPartition(passing, q);
    FailedAppend(Failing(ids, p), Failing(passing, q));
    PassingMeans(ids, p);
    PassingMeans(passing, q);
  }

  lemma {:induction false} AllPass(ids: seq<string>, problem: string -> Option<Reason>)
    requires forall id :: id in ids ==> problem(id).None?
    ensures Passing(ids, problem) == ids && Failing(ids, problem) == []
  {
    if ids != [] {
      var n := |ids| - 1;
      assert ids == ids[..n] + [ids[n]];
      AllPass(ids[..n], problem);
    }
  }

  /** A set of rows in some order, as a statement returns them. */
  method Listed(s: set<string>) returns (ids: seq<string>)
    ensures Distinct(ids) && |ids| == |s| && forall id :: id in ids <==> id in s
  {
    ids := [];
    var left := s;
    while left != {}
      invariant left <= s && Distinct(ids) && |ids| + |left| == |s|
      invariant forall id :: id in ids <==> id in s && id !in left
      decreases |left|
    {
      var id :| id in left;
      ids := ids + [id];
      left := left - {id};
    }
  }

  lemma {:induction false} DistinctSize(ids: seq<string>)
    requires Distinct(ids)
    ensures |set id | id in ids| == |ids|
  {
    if ids != [] {
      var n := |ids| - 1;
      DistinctSize(ids[..n]);
      assert (set id | id in ids) == (set id | id in ids[..n]) + {ids[n]};
    }
  }

  /** Two distinct lists with the same members are permutations of each other. */
  lemma {:induction false} SameMembers(a: seq<string>, b: seq<string>)
    requires Distinct(a) && Distinct(b) && forall id :: id in a <==> id in b
    ensures multiset(a) == multiset(b)
  {
    forall id ensures multiset(a)[id] == multiset(b)[id] {
      CountsOnce(a, id);
      CountsOnce(b, id);
    }
  }

  lemma {:induction false} CountsOnce(ids: seq<string>, id: string)
    requires Distinct(ids)
    ensures multiset(ids)[id] == if id in ids then 1 else 0
  {
    if ids != [] {
      var n := |ids| - 1;
      assert ids == ids[..n] + [ids[n]];
      CountsOnce(ids[..n], id);
    }
  }

  // ---- The rules ----

  /** Why a component cannot be reserved: reservations disabled, not expiring while unlocked, or
      expiring while locked. */
  function ReserveProblem(c: Comp, duration: int): Option<Reason> {
    if c.disabled then Some(Disabled)
    else if duration == 0 && !c.locked then Some(Unlocked)
    else if duration != 0 && c.locked then Some(Locked)
    else None
  }

  /** Why a component cannot be locked or unlocked; already being so takes precedence over
      disabled reservations. */
  function LockProblem(c: Comp, newVal: bool): Option<Reason> {
    if c.locked == newVal then Some(if newVal then Locked else Unlocked)
    else if c.disabled then Some(Disabled)
    else None
  }

  type Comps = map<string, Comp>

  type Reservations = map<string, Reservation>

  function ReserveCheck(comps: Comps, duration: int): string -> Option<Reason> {
    id => if id in comps then ReserveProblem(comps[id], duration) else None
  }

  function LockCheck(comps: Comps, newVal: bool): string -> Option<Reason> {
    id => if id in comps then LockProblem(comps[id], newVal) else None
  }

  function ReservedCheck(res: Reservations): string -> Option<Reason> {
    id => if id in res then Some(Reserved) else None
  }

  /** Only a positive duration gives an expiration. */
  function Expiry(now: int, duration: int): Option<int> {
    if duration > 0 then Some(now + duration) else None
  }

  /** At most one reservation per component is the primary key. A component with reservations
      disabled has none; those that do not expire are on locked components, and those that
      expire on unlocked ones. */
  ghost predicate TablesOk(comps: Comps, res: Reservations) {
    forall id :: id in res ==>
      id in comps && !comps[id].disabled && (res[id].expires.None? <==> comps[id].locked)
  }

  // ---- Reserving ----

  predicate AllReservable(comps: Comps, res: Reservations, selected: seq<string>, duration: int) {
    forall id :: id in selected ==> id in comps && ReserveProblem(comps[id], duration).None? && id !in res
  }

  /** What a rigid request that fails reports: nothing selected, the problem of the first component
      that has one, or a reservation. */
  function RequestError(selected: seq<string>, check: string -> Option<Reason>): LockError {
    if selected == [] then ErrNotFound
    else match FirstProblem(selected, check)
      case Some(r) => ErrorOf(r)
      case None => ErrReserved
  }

  function Inserted(res: Reservations, ids: seq<string>, expires: Option<int>, uuid: string): Reservations {
    res + map id | id in ids :: Reservation(expires, id + ":rk:" + uuid)
  }

  function ReserveReason(comps: Comps, res: Reservations, duration: int): string -> Option<Reason> {
    id => if id in comps && ReserveProblem(comps[id], duration).Some? then ReserveProblem(comps[id], duration)
          else if id in res then Some(Reserved)
          else None
  }

  /** A request to reserve that was carried out: each selected component was reserved or is
      reported with its reason. */
  ghost predicate ReserveDone(comps: Comps, before: Reservations, after: Reservations, selected: seq<string>,
                              duration: int, now: int, uuid: string, result: Outcome)
  {
    && SortedBy(result, selected, ReserveReason(comps, before, duration))
    && after == Inserted(before, result.success, Expiry(now, duration), uuid)
  }

  lemma ReserveOutcome(comps: Comps, before: Reservations, selected: seq<string>, duration: int)
    requires forall id :: id in selected ==> id in comps
    ensures var check := ReserveCheck(comps, duration); var passing := Passing(selected, check);
            SortedBy(Outcome(Passing(passing, ReservedCheck(before)), Failing(selected, check) + Failing(passing, ReservedCheck(before))),
                     selected, ReserveReason(comps, before, duration))
  {
    SortTwice(selected, ReserveCheck(comps, duration), ReservedCheck(before), ReserveReason(comps, before, duration));
  }

  lemma NoneFail(ids: seq<string>, problem: string -> Option<Reason>)
    requires |Passing(ids, problem)| == |ids|
    ensures Failing(ids, problem) == [] && Passing(ids, problem) == ids && forall id :: id in ids ==> problem(id).None?
  {
    PassingMeans(ids, problem);
    assert Failing(ids, problem) == [];
    assert forall id :: id in ids && problem(id).Some? ==> Failure(id, problem(id).value) in Failing(ids, problem);
    AllPass(ids, problem);
  }

  lemma SomeFail(ids: seq<string>, problem: string -> Option<Reason>)
    requires |Passing(ids, problem)| != |ids|
    ensures exists id :: id in ids && problem(id).Some?
  {
    PassingMeans(ids, problem);
    var f := Failing(ids, problem)[0];
    assert f in Failing(ids, problem);
  }

  lemma NothingInserted(res: Reservations, expires: Option<int>, uuid: string)
    ensures Inserted(res, [], expires, uuid) == res
  {
  }

  /** Reserving keeps the tables' rules exactly when the duration is not negative or nothing was
      reserved: a negative one passes as expiring and is stored without an expiration. */
  lemma ReserveKeepsTables(comps: Comps, before: Reservations, after: Reservations, selected: seq<string>,
                           duration: int, now: int, uuid: string, result: Outcome)
    requires TablesOk(comps, before) && (forall id :: id in selected ==> id in comps)
    requires ReserveDone(comps, before, after, selected, duration, now, uuid, result)
    ensures TablesOk(comps, after) <==> duration >= 0 || result.success == []
  {
    if duration < 0 && result.success != [] {
      var id := result.success[0];
      assert id in result.success;
      assert after[id].expires.None? && !comps[id].locked;
    }
  }

  // ---- Keys ----

  /** Unforced requests need keys, and none of them empty. */
  predicate BlankKey(keys: seq<LockKey>, force: bool) {
    !force && (keys == [] || exists k :: k in keys && k.key == "")
  }

  function KeyIds(keys: seq<LockKey>): seq<string> {
    seq(|keys|, i requires 0 <= i < |keys| => keys[i].id)
  }

  function AllFailed(keys: seq<LockKey>): seq<Failure> {
    seq(|keys|, i requires 0 <= i < |keys| => Failure(keys[i].id, ServerError))
  }

  function KeysOf(ids: seq<string>): seq<LockKey> {
    seq(|ids|, i requires 0 <= i < |ids| => LockKey(ids[i], ""))
  }

  predicate MatchesSome(r: Reservation, id: string, keys: seq<LockKey>, force: bool) {
    exists k :: k in keys && if force then k.id == id else k.key == r.key
  }

  lemma ForcedMatch(r: Reservation, id: string, ids: seq<string>)
    ensures MatchesSome(r, id, KeysOf(ids), true) <==> id in ids
  {
    if id in ids {
      var i :| 0 <= i < |ids| && ids[i] == id;
      assert KeysOf(ids)[i].id == id;
    }
    if k :| k in KeysOf(ids) && k.id == id {
      var i :| 0 <= i < |ids| && KeysOf(ids)[i] == k;
      assert ids[i] == id;
    }
  }

  /** No id is given twice, and a key is given with the id it contains. */
  predicate KeysFit(res: Reservations, keys: seq<LockKey>, force: bool) {
    Distinct(KeyIds(keys)) && (!force ==> forall id, k :: id in res && k in keys && res[id].key == k.key ==> k.id == id)
  }

  function FoundCheck(locks: seq<string>): string -> Option<Reason> {
    id => if id in locks then None else Some(NotFound)
  }

  /** The report of a flexible request: each key's id was found or was not. */
  method Report(keys: seq<LockKey>, locks: seq<string>) returns (result: Outcome)
    ensures result == Outcome(Passing(KeyIds(keys), FoundCheck(locks)), Failing(KeyIds(keys), FoundCheck(locks)))
  {
    result := Outcome([], []);
    ghost var ids := KeyIds(keys);
    for i := 0 to |keys|
      invariant result == Outcome(Passing(ids[..i], FoundCheck(locks)), Failing(ids[..i], FoundCheck(locks)))
    {
      assert ids[..i + 1][..i] == ids[..i] && ids[..i + 1][i] == keys[i].id;
      if keys[i].id !in locks {
        result := result.(failure := result.failure + [Failure(keys[i].id, NotFound)]);
      } else {
        result := result.(success := result.success + [keys[i].id]);
      }
    }
    assert ids[..|keys|] == ids;
  }

  /** The ids of the keys are divided into those whose reservation matched and the rest. */
  ghost predicate ReleaseDone(matched: set<string>, keys: seq<LockKey>, result: Outcome) {
    && Partitions(result, KeyIds(keys))
    && (forall id :: id in result.success <==> id in matched)
    && (forall f :: f in result.failure ==> f.reason == NotFound && f.id !in matched)
  }

  lemma MatchedAreKeys(res: Reservations, keys: seq<LockKey>, force: bool)
    requires KeysFit(res, keys, force)
    ensures forall id :: id in res && MatchesSome(res[id], id, keys, force) ==> id in KeyIds(keys)
  {
    forall id | id in res && MatchesSome(res[id], id, keys, force) ensures id in KeyIds(keys) {
      var k :| k in keys && if force then k.id == id else k.key == res[id].key;
      var i :| 0 <= i < |keys| && keys[i] == k;
      assert KeyIds(keys)[i] == id;
    }
  }

  lemma ReportMeans(keys: seq<LockKey>, locks: seq<string>, matched: set<string>)
    requires forall id :: id in locks <==> id in matched
    requires forall id :: id in matched ==> id in KeyIds(keys)
    ensures ReleaseDone(matched, keys, Outcome(Passing(KeyIds(keys), FoundCheck(locks)), Failing(KeyIds(keys), FoundCheck(locks))))
  {
    SortedPartition(KeyIds(keys), FoundCheck(locks));
    PassingMeans(KeyIds(keys), FoundCheck(locks));
  }

  /** As many matches as keys means that every key matched. */
  lemma AllMatched(keys: seq<LockKey>, matched: set<string>)
    requires Distinct(KeyIds(keys)) && |matched| == |keys| && forall id :: id in matched ==> id in KeyIds(keys)
    ensures forall id :: id in KeyIds(keys) ==> id in matched
  {
    var ids := set id | id in KeyIds(keys);
    DistinctSize(KeyIds(keys));
    Subset(matched, ids);
  }

  lemma Subset(a: set<string>, b: set<string>)
    requires a <= b && |a| == |b|
    ensures a == b
  {
    assert |b - a| == 0;
    assert b - a == {};
  }

  /** The report of a request: the ids found when there are as many as keys, else key by key. */
  method ReportFound(keys: seq<LockKey>, locks: seq<string>, ghost matched: set<string>) returns (result: Outcome)
    requires Distinct(locks) && |locks| == |matched| && forall id :: id in locks <==> id in matched
    ensures Distinct(KeyIds(keys)) && (forall id :: id in matched ==> id in KeyIds(keys)) ==> ReleaseDone(matched, keys, result)
  {
    hide Distinct, KeyIds, ReleaseDone;
    if |keys| != |locks| {
      result := Report(keys, locks);
      if forall id :: id in matched ==> id in KeyIds(keys) {
        ReportMeans(keys, locks, matched);
      }
    } else {
      result := Outcome(locks, []);
      if Distinct(KeyIds(keys)) && forall id :: id in matched ==> id in KeyIds(keys) {
        AllReleased(keys, matched, locks);
      }
    }
  }

  function WithExpiry(res: Reservations, ids: set<string>, time: int): Reservations {
    map id | id in res :: if id in ids then res[id].(expires := Some(time)) else res[id]
  }

  lemma WithExpiryKeepsTables(comps: Comps, res: Reservations, ids: set<string>, time: int)
    requires TablesOk(comps, res) && forall id :: id in ids && id in res ==> res[id].expires.Some?
    ensures TablesOk(comps, WithExpiry(res, ids, time))
  {
  }

  lemma AllReleased(keys: seq<LockKey>, matched: set<string>, locks: seq<string>)
    requires Distinct(KeyIds(keys)) && |matched| == |keys| && forall id :: id in matched ==> id in KeyIds(keys)
    requires Distinct(locks) && forall id :: id in locks <==> id in matched
    ensures ReleaseDone(matched, keys, Outcome(locks, []))
  {
    AllMatched(keys, matched);
    SameMembers(locks, KeyIds(keys));
    assert FailedIds([]) == [];
  }

  // ---- Locking ----

  predicate Lockable(comps: Comps, res: Reservations, newVal: bool, id: string) {
    id in comps && LockProblem(comps[id], newVal).None? && id !in res
  }

  function LockReason(comps: Comps, res: Reservations, newVal: bool): string -> Option<Reason> {
    id => if id in comps && LockProblem(comps[id], newVal).Some? then LockProblem(comps[id], newVal)
          else if id in res then Some(Reserved)
          else None
  }

  function WithLocked(comps: Comps, ids: set<string>, newVal: bool): Comps {
    map id | id in comps :: if id in ids then comps[id].(locked := newVal) else comps[id]
  }

  ghost predicate LockDone(before: Comps, after: Comps, res: Reservations, selected: seq<string>, newVal: bool,
                           result: Outcome) {
    && SortedBy(result, selected, LockReason(before, res, newVal))
    && after == WithLocked(before, (set id | id in result.success), newVal)
  }

  lemma LockPartition(passing: seq<string>, affected: seq<string>, reserved: seq<string>)
    requires Distinct(passing) && Distinct(affected) && Distinct(reserved)
    requires forall id :: id in passing <==> id in affected || id in reserved
    requires forall id :: !(id in affected && id in reserved)
    ensures multiset(affected) + multiset(reserved) == multiset(passing)
  {
    forall id ensures multiset(passing)[id] == multiset(affected)[id] + multiset(reserved)[id] {
      CountsOnce(passing, id);
      CountsOnce(affected, id);
      CountsOnce(reserved, id);
    }
  }

  function ReservedFailures(ids: seq<string>): seq<Failure> {
    seq(|ids|, i requires 0 <= i < |ids| => Failure(ids[i], Reserved))
  }

  lemma ReservedFailuresMean(ids: seq<string>)
    ensures FailedIds(ReservedFailures(ids)) == ids
    ensures forall f :: f in ReservedFailures(ids) ==> f.id in ids && f.reason == Reserved
  {
    forall f | f in ReservedFailures(ids) ensures f.id in ids && f.reason == Reserved {
      var i :| 0 <= i < |ids| && ReservedFailures(ids)[i] == f;
    }
  }

  lemma LockPartitions(comps: Comps, selected: seq<string>, newVal: bool, affected: seq<string>, reserved: seq<string>)
    requires multiset(affected) + multiset(reserved) == multiset(Passing(selected, LockCheck(comps, newVal)))
    ensures Partitions(Outcome(affected, Failing(selected, LockCheck(comps, newVal)) + ReservedFailures(reserved)), selected)
  {
    hide Passing, Failing, ReservedFailures, LockCheck;
    SortedPartition(selected, LockCheck(comps, newVal));
    FailedAppend(Failing(selected, LockCheck(comps, newVal)), ReservedFailures(reserved));
    ReservedFailuresMean(reserved);
  }

  lemma LockReasons(comps: Comps, res: Reservations, selected: seq<string>, newVal: bool, reserved: seq<string>)
    requires forall id :: id in selected ==> id in comps
    requires forall id :: id in reserved <==> id in Passing(selected, LockCheck(comps, newVal)) && id in res
    ensures var reason := LockReason(comps, res, newVal);
            && (forall id :: id in Passing(selected, LockCheck(comps, newVal)) && id !in res <==> id in selected && reason(id).None?)
            && (forall f :: f in Failing(selected, LockCheck(comps, newVal)) + ReservedFailures(reserved) ==>
                              f.id in selected && reason(f.id) == Some(f.reason))
  {
    hide Passing, Failing, ReservedFailures;
    PassingMeans(selected, LockCheck(comps, newVal));
    ReservedFailuresMean(reserved);
  }

  lemma LockOutcome(comps: Comps, res: Reservations, selected: seq<string>, newVal: bool,
                    affected: seq<string>, reserved: seq<string>)
    requires Distinct(selected) && forall id :: id in selected ==> id in comps
    requires Distinct(affected) && Distinct(reserved)
    requires forall id :: id in affected <==> id in Passing(selected, LockCheck(comps, newVal)) && id !in res
    requires forall id :: id in reserved <==> id in Passing(selected, LockCheck(comps, newVal)) && id in res
    ensures SortedBy(Outcome(affected, Failing(selected, LockCheck(comps, newVal)) + ReservedFailures(reserved)),
                     selected, LockReason(comps, res, newVal))
  {
    hide Passing, Failing, Distinct, ReservedFailures, LockCheck, LockReason, Partitions;
    var passing := Passing(selected, LockCheck(comps, newVal));
    PassingMeans(selected, LockCheck(comps, newVal));
    LockPartition(passing, affected, reserved);
    LockPartitions(comps, selected, newVal, affected, reserved);
    LockReasons(comps, res, selected, newVal, reserved);
  }

  lemma PassingAreLockable(comps: Comps, res: Reservations, selected: seq<string>, newVal: bool)
    requires forall id :: id in selected ==> id in comps
    ensures forall id :: id in Passing(selected, LockCheck(comps, newVal)) && id !in res <==>
                         id in selected && Lockable(comps, res, newVal, id)
    ensures |Passing(selected, LockCheck(comps, newVal))| == |selected| - |Failing(selected, LockCheck(comps, newVal))|
  {
    PassingMeans(selected, LockCheck(comps, newVal));
  }

  lemma Remaining(res: Reservations, lockKeys: seq<string>, found: set<string>, affected: set<string>)
    requires affected == (set id | id in lockKeys) - found
    requires lockKeys != [] ==> found == set id | id in res && id in lockKeys
    ensures forall id :: id in affected <==> id in lockKeys && id !in found
    ensures forall id :: id in affected ==> id !in res
    ensures affected == {} ==> forall id :: id in lockKeys ==> id in res
  {
    forall id ensures id in affected <==> id in lockKeys && id !in found {}
  }

  /** The counts that a request reports add up to the number of ids it was about. */
  lemma CountsAddUp(o: Outcome, ids: seq<string>)
    requires Partitions(o, ids)
    ensures |o.success| + |o.failure| == |ids|
  {
    assert |multiset(o.success) + multiset(FailedIds(o.failure))| == |ids|;
  }

  class LockStore {
    var comps: Comps
    var res: Reservations

    ghost predicate Valid()
      reads this
    {
      TablesOk(comps, res)
    }

    constructor (comps: Comps)
      ensures Valid() && this.comps == comps && res == map[]
    {
      this.comps := comps;
      res := map[];
    }

    // ---- Reserve ----

    /** The rows of `INSERT ... ON CONFLICT DO NOTHING RETURNING`. */
    method InsertReservations(ids: seq<string>, expires: Option<int>, uuid: string) returns (inserted: seq<string>)
      requires Distinct(ids)
      modifies this`res
      ensures inserted == Passing(ids, ReservedCheck(old(res)))
      ensures res == Inserted(old(res), inserted, expires, uuid)
    {
      inserted := Passing(ids, ReservedCheck(res));
      res := Inserted(res, inserted, expires, uuid);
    }

    /** `selected` are the ids the filter matched. */
    method Reserve(selected: seq<string>, duration: int, rigid: bool, now: int, uuid: string)
      returns (result: Outcome, err: Option<LockError>)
      requires Distinct(selected) && forall id :: id in selected ==> id in comps
      modifies this`res
      ensures err.Some? ==> res == old(res)
      ensures err.None? ==> selected != [] && ReserveDone(comps, old(res), res, selected, duration, now, uuid, result)
      ensures rigid && err.None? ==> result == Outcome(selected, [])
      ensures err.Some? <==> selected == [] || (rigid && !AllReservable(comps, old(res), selected, duration))
      ensures err.Some? ==> err.value == RequestError(selected, ReserveCheck(comps, duration))
      ensures old(Valid()) ==> (Valid() <==> err.Some? || duration >= 0 || result.success == [])
    {
      hide Passing, Failing, Distinct, SortedBy, Inserted, TablesOk;
      var begin := res;
      ghost var check := ReserveCheck(comps, duration);
      var failure, insertComps := [], [];
      NothingSorted(check);
      assert selected[..0] == [];
      if |selected| == 0 {
        return Outcome([], []), Some(ErrNotFound);
      }
      for i := 0 to |selected|
        invariant failure == Failing(selected[..i], check) && insertComps == Passing(selected[..i], check)
        invariant res == begin && (rigid ==> failure == [])
      {
        SortStep(selected, i, check);
        var lockErr := ReserveProblem(comps[selected[i]], duration);
        if lockErr.Some? {
          if rigid {
            FirstProblemAt(selected, i, check);
            return Outcome([], []), Some(ErrorOf(lockErr.value));
          }
          failure := failure + [Failure(selected[i], lockErr.value)];
        } else {
          insertComps := insertComps + [selected[i]];
        }
      }
      assert selected[..|selected|] == selected;
      PassingMeans(selected, check);
      PassingMeans(insertComps, ReservedCheck(begin));
      ReserveOutcome(comps, begin, selected, duration);
      if |insertComps| == 0 {
        NothingSorted(ReservedCheck(begin));
        NothingInserted(begin, Expiry(now, duration), uuid);
        assert failure + [] == failure;
        return Outcome([], failure), None;
      }
      var inserted := InsertReservations(insertComps, Expiry(now, duration), uuid);
      if |insertComps| != |inserted| {
        if rigid {
          SomeFail(insertComps, ReservedCheck(begin));
          NoneFail(selected, check);
          NoFirstProblem(selected, check);
          res := begin;
          return Outcome([], []), Some(ErrReserved);
        }
        failure := failure + Failing(insertComps, ReservedCheck(begin));
      } else {
        NoneFail(insertComps, ReservedCheck(begin));
        assert failure + [] == failure;
      }
      result, err := Outcome(inserted, failure), None;
      if rigid {
        NoneFail(selected, check);
      }
      if old(Valid()) {
        ReserveKeepsTables(comps, begin, res, selected, duration, now, uuid, result);
      }
    }

    // ---- Release and renew ----

    /** The ids of the reservations that a statement with the given keys matches. */
    ghost function Matched(keys: seq<LockKey>, force: bool): set<string>
      reads this
    {
      set id | id in res && MatchesSome(res[id], id, keys, force)
    }

    /** `DELETE ... RETURNING`, by id if forced and by reservation key otherwise. */
    method DeleteRows(keys: seq<LockKey>, force: bool) returns (locks: seq<string>)
      modifies this`res
      ensures Distinct(locks) && |locks| == |old(Matched(keys, force))|
      ensures forall id :: id in locks <==> id in old(Matched(keys, force))
      ensures res == old(res) - old(Matched(keys, force))
    {
      var gone := set id | id in res && MatchesSome(res[id], id, keys, force);
      locks := Listed(gone);
      res := res - gone;
    }

    /** Removes reservations by key, or forcibly by id. */
    method Release(keys: seq<LockKey>, rigid: bool, force: bool) returns (result: Outcome, err: Option<LockError>)
      requires force ==> keys != []
      modifies this`res
      ensures old(Valid()) ==> Valid()
      ensures err.Some? ==> res == old(res)
      ensures err.None? && !BlankKey(keys, force) ==> res == old(res) - old(Matched(keys, force))
      ensures rigid ==> (err.Some? <==> BlankKey(keys, force) || |old(Matched(keys, force))| != |keys|)
      ensures err.Some? ==> err.value == if BlankKey(keys, force) then ErrMissingKey else ErrNotFound
      ensures !rigid ==> err.None?
      ensures err.None? && !BlankKey(keys, force) && KeysFit(old(res), keys, force) ==>
                ReleaseDone(old(Matched(keys, force)), keys, result)
      ensures err.None? && BlankKey(keys, force) ==> res == old(res) && result == Outcome([], AllFailed(keys))
    {
      result, err := Outcome([], []), None;
      if BlankKey(keys, force) {
        if rigid {
          return result, Some(ErrMissingKey);
        }
        return Outcome([], AllFailed(keys)), None;
      }
      hide ReleaseDone, Distinct, KeyIds;
      var begin := res;
      ghost var matched := Matched(keys, force);
      var locks := DeleteRows(keys, force);
      if |keys| != |locks| && rigid {
        res := begin;
        return result, Some(ErrNotFound);
      }
      result := ReportFound(keys, locks, matched);
      if KeysFit(begin, keys, force) {
        MatchedAreKeys(begin, keys, force);
      }
    }

    /** The reservations that the keys match and that expire. */
    ghost function Renewable(keys: seq<LockKey>): (ids: set<string>)
      reads this
      ensures forall id :: id in ids ==> id in res && res[id].expires.Some? && MatchesSome(res[id], id, keys, false)
    {
      set id | id in res && MatchesSome(res[id], id, keys, false) && res[id].expires.Some?
    }

    /** Renews the expiration of reservations that expire. */
    method Renew(keys: seq<LockKey>, duration: int, now: int, rigid: bool) returns (result: Outcome,
                 err: Option<LockError>)
      modifies this`res
      ensures old(Valid()) ==> Valid()
      ensures err.Some? ==> res == old(res)
      ensures err.None? && !BlankKey(keys, false) ==> res == WithExpiry(old(res), old(Renewable(keys)), now + duration)
      ensures rigid ==> (err.Some? <==> BlankKey(keys, false) || |old(Renewable(keys))| != |keys|)
      ensures err.Some? ==> err.value == if BlankKey(keys, false) then ErrMissingKey else ErrNotFound
      ensures !rigid ==> err.None?
      ensures err.None? && !BlankKey(keys, false) && KeysFit(old(res), keys, false) ==>
                ReleaseDone(old(Renewable(keys)), keys, result)
      ensures err.None? && BlankKey(keys, false) ==> res == old(res) && result == Outcome([], AllFailed(keys))
    {
      result, err := Outcome([], []), None;
      if BlankKey(keys, false) {
        if rigid {
          return result, Some(ErrMissingKey);
        }
        return Outcome([], AllFailed(keys)), None;
      }
      hide ReleaseDone, Distinct, KeyIds, TablesOk, WithExpiry;
      var renewed := set id | id in res && MatchesSome(res[id], id, keys, false) && res[id].expires.Some?;
      assert renewed == Renewable(keys);
      var locks := Listed(renewed);
      if |locks| != |keys| && rigid {
        return result, Some(ErrNotFound);
      }
      result := ReportFound(keys, locks, renewed);
      if KeysFit(res, keys, false) {
        MatchedAreKeys(res, keys, false);
      }
      if Valid() {
        WithExpiryKeepsTables(comps, res, renewed, now + duration);
      }
      res := WithExpiry(res, renewed, now + duration);
    }

    /** Removes the reservations that have expired. */
    method Expire(now: int)
      modifies this`res
      ensures old(Valid()) ==> Valid()
      ensures forall id :: id in res <==> id in old(res) && (old(res)[id].expires.Some? ==> now < old(res)[id].expires.value)
      ensures forall id :: id in res ==> res[id] == old(res)[id]
    {
      res := map id | id in res && (res[id].expires.Some? ==> now < res[id].expires.value) :: res[id];
    }

    // ---- Disable and repair ----

    /** Disabling releases the reservations of the components first, however many there are. */
    method SetDisabled(selected: seq<string>, newVal: bool) returns (result: Outcome, err: Option<LockError>)
      requires Distinct(selected) && forall id :: id in selected ==> id in comps
      modifies this
      ensures old(Valid()) ==> Valid()
      ensures err == if selected == [] then Some(ErrNotFound) else None
      ensures err.Some? ==> comps == old(comps) && res == old(res)
      ensures err.None? ==> result.failure == [] && multiset(result.success) == multiset(selected)
      ensures err.None? ==> comps.Keys == old(comps).Keys && forall id :: id in comps ==>
                comps[id] == if id in selected then old(comps)[id].(disabled := newVal) else old(comps)[id]
      ensures err.None? ==> res == if newVal then old(res) - (set id | id in selected) else old(res)
    {
      if |selected| == 0 {
        return Outcome([], []), Some(ErrNotFound);
      }
      if newVal {
        var _ := DeleteRows(KeysOf(selected), true);
        forall id | id in old(res) ensures MatchesSome(old(res)[id], id, KeysOf(selected), true) <==> id in selected {
          ForcedMatch(old(res)[id], id, selected);
        }
        assert res == old(res) - (set id | id in selected);
      }
      comps := map id | id in comps :: if id in selected then comps[id].(disabled := newVal) else comps[id];
      result, err := Outcome(selected, []), None;
    }

    // ---- Lock and unlock ----

    method CheckLocks(selected: seq<string>, newVal: bool, rigid: bool)
      returns (failure: seq<Failure>, lockKeys: seq<string>, err: Option<LockError>)
      requires forall id :: id in selected ==> id in comps
      ensures err.Some? ==> rigid && exists id :: id in selected && !Lockable(comps, res, newVal, id)
      ensures err.Some? ==> err.value == RequestError(selected, LockCheck(comps, newVal))
      ensures err.None? ==> failure == Failing(selected, LockCheck(comps, newVal)) && (rigid ==> failure == [])
      ensures err.None? ==> lockKeys == Passing(selected, LockCheck(comps, newVal))
    {
      hide Passing, Failing;
      ghost var check := LockCheck(comps, newVal);
      failure, lockKeys, err := [], [], None;
      NothingSorted(check);
      assert selected[..0] == [];
      for i := 0 to |selected|
        invariant failure == Failing(selected[..i], check) && lockKeys == Passing(selected[..i], check)
        invariant rigid ==> failure == []
      {
        SortStep(selected, i, check);
        var lockErr := LockProblem(comps[selected[i]], newVal);
        if lockErr.Some? {
          if rigid {
            FirstProblemAt(selected, i, check);
            return failure, lockKeys, Some(ErrorOf(lockErr.value));
          }
          failure := failure + [Failure(selected[i], lockErr.value)];
        } else {
          lockKeys := lockKeys + [selected[i]];
        }
      }
      assert selected[..|selected|] == selected;
    }

    /** Locks or unlocks components. When none of them can be, the request fails even if it is
        flexible. */
    method SetLocked(selected: seq<string>, newVal: bool, rigid: bool) returns (result: Outcome, err: Option<LockError>)
      requires Distinct(selected) && forall id :: id in selected ==> id in comps
      modifies this`comps
      ensures old(Valid()) ==> Valid()
      ensures err.Some? ==> comps == old(comps)
      ensures err.None? ==> selected != [] && LockDone(old(comps), comps, res, selected, newVal, result)
      ensures rigid && err.None? ==> result.failure == []
      ensures rigid ==> (err.Some? <==> selected == [] || exists id :: id in selected && !Lockable(old(comps), res, newVal, id))
      ensures !rigid ==> (err.Some? <==> forall id :: id in selected ==> !Lockable(old(comps), res, newVal, id))
      ensures rigid && err.Some? ==> err.value == RequestError(selected, LockCheck(old(comps), newVal))
      ensures !rigid && err.Some? ==> err.value == if selected == [] then ErrNotFound else ErrReserved
    {
      result := Outcome([], []);
      if |selected| == 0 {
        return result, Some(ErrNotFound);
      }
      hide Passing, Failing, Distinct, SortedBy, WithLocked, ReservedFailures;
      var failure, lockKeys, checkErr := CheckLocks(selected, newVal, rigid);
      if checkErr.Some? {
        return result, checkErr;
      }
      PassingMeans(selected, LockCheck(comps, newVal));
      PassingAreLockable(comps, res, selected, newVal);
      if rigid {
        NoneFail(selected, LockCheck(comps, newVal));
        NoFirstProblem(selected, LockCheck(comps, newVal));
        assert lockKeys == selected;
      }
      // Without any id, the query for reservations has no condition.
      var found := if |lockKeys| > 0 then set id | id in res && id in lockKeys else res.Keys;
      if found != {} && rigid {
        ghost var id :| id in found;
        assert id in selected && !Lockable(comps, res, newVal, id);
        return result, Some(ErrReserved);
      }
      var affected := (set id | id in lockKeys) - found;
      Remaining(res, lockKeys, found, affected);
      if affected == {} {
        assert selected[0] in selected;
        return result, Some(ErrReserved);
      }
      ghost var one :| one in affected;
      assert one in selected && Lockable(comps, res, newVal, one);
      result := LockRest(selected, newVal, failure, lockKeys, found, affected);
      err := None;
    }

    /** Changes the components left and reports all. */
    method LockRest(selected: seq<string>, newVal: bool, failure: seq<Failure>, ghost lockKeys: seq<string>,
                    found: set<string>, affected: set<string>) returns (result: Outcome)
      requires Distinct(selected) && forall id :: id in selected ==> id in comps
      requires failure == Failing(selected, LockCheck(comps, newVal)) && lockKeys == Passing(selected, LockCheck(comps, newVal))
      requires forall id :: id in found <==> id in lockKeys && id in res
      requires forall id :: id in affected <==> id in lockKeys && id !in res
      modifies this`comps
      ensures old(Valid()) ==> Valid()
      ensures LockDone(old(comps), comps, res, selected, newVal, result)
      ensures failure == [] && found == {} ==> result.failure == []
    {
      hide Passing, Failing, Distinct, SortedBy, WithLocked, ReservedFailures, TablesOk;
      var reserved := Listed(found);
      var affectedIds := Listed(affected);
      LockOutcome(comps, res, selected, newVal, affectedIds, reserved);
      assert affected == set id | id in affectedIds;
      if Valid() {
        LockKeepsTables(comps, res, affected, newVal);
      }
      comps := WithLocked(comps, affected, newVal);
      result := Outcome(affectedIds, failure + ReservedFailures(reserved));
      if found == {} {
        assert reserved == [];
        ReservedFailuresMean([]);
        NoReservedFailures();
      }
    }
  }

  lemma NoReservedFailures()
    ensures ReservedFailures([]) == []
  {
  }

  lemma LockKeepsTables(comps: Comps, res: Reservations, ids: set<string>, newVal: bool)
    requires TablesOk(comps, res) && forall id :: id in ids ==> id !in res
    ensures TablesOk(WithLocked(comps, ids, newVal), res)
  {
  }
}
