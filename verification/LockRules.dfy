/** The rules of locks and reservations in terms of the columns of a component and its reservation:
    what each request changes and what it reports. */
module LockRules {
  import opened Wrappers
  import opened ComponentLocks

  /** A component is locked exactly when a reservation of the given duration needs it to be: one
      without an expiration needs a locked component, one that expires an unlocked one. */
  predicate StateFits(c: Comp, duration: int) {
    !c.disabled && (c.locked <==> duration == 0)
  }

  predicate CanReserve(comps: Comps, res: Reservations, duration: int, id: string) {
    id in comps && StateFits(comps[id], duration) && id !in res
  }

  /** The reasons for not reserving a component. */
  predicate ReserveReasonOk(c: Comp, reserved: bool, duration: int, reason: Reason) {
    && (reason == Disabled <==> c.disabled)
    && (reason == Unlocked <==> !c.disabled && !c.locked && duration == 0)
    && (reason == Locked <==> !c.disabled && c.locked && duration != 0)
    && (reason == Reserved <==> StateFits(c, duration) && reserved)
    && reason in {Disabled, Unlocked, Locked, Reserved}
  }

  /** A request that was carried out has reserved exactly the selected components that are enabled,
      not reserved, and locked if and only if the duration is 0. The others are reported with the
      reason; no reservation there was is changed. */
  lemma ReservedExactly(comps: Comps, before: Reservations, after: Reservations, selected: seq<string>,
                        duration: int, now: int, uuid: string, result: Outcome)
    requires ReserveDone(comps, before, after, selected, duration, now, uuid, result)
    requires forall id :: id in selected ==> id in comps
    ensures forall id :: id in result.success <==> id in selected && CanReserve(comps, before, duration, id)
    ensures forall f :: f in result.failure ==>
              f.id in selected && ReserveReasonOk(comps[f.id], f.id in before, duration, f.reason)
    ensures ReportsAll(result, selected)
    ensures forall id :: id in after <==> id in before || id in result.success
    ensures forall id :: id in before ==> after[id] == before[id]
    ensures forall id :: id in result.success ==>
              after[id] == Reservation(if duration <= 0 then None else Some(now + duration), id + ":rk:" + uuid)
  {
    hide SortedBy, ReportsAll;
    SortedMeans(result, selected, ReserveReason(comps, before, duration));
  }

  /** No id is left out of the report, and it has as many entries as there are ids: so each of
      different ids is reported once. */
  ghost predicate ReportsAll(o: Outcome, ids: seq<string>) {
    && |o.success| + |o.failure| == |ids|
    && forall id :: id in ids ==> id in o.success || exists f :: f in o.failure && f.id == id
  }

  lemma PartitionReportsAll(o: Outcome, ids: seq<string>)
    requires Partitions(o, ids)
    ensures ReportsAll(o, ids)
  {
    CountsAddUp(o, ids);
    forall id | id in ids && id !in o.success ensures exists f :: f in o.failure && f.id == id {
      assert id in multiset(o.success) + multiset(FailedIds(o.failure));
      var i :| 0 <= i < |o.failure| && FailedIds(o.failure)[i] == id;
      assert o.failure[i].id == id;
    }
  }

  lemma SortedMeans(o: Outcome, ids: seq<string>, problem: string -> Option<Reason>)
    requires SortedBy(o, ids, problem)
    ensures forall id :: id in o.success <==> id in ids && problem(id).None?
    ensures forall f :: f in o.failure ==> f.id in ids && problem(f.id) == Some(f.reason)
    ensures ReportsAll(o, ids)
  {
    PartitionReportsAll(o, ids);
  }

  predicate FirstUnfit(comps: Comps, selected: seq<string>, duration: int, i: int)
    requires forall id :: id in selected ==> id in comps
  {
    && 0 <= i < |selected| && !StateFits(comps[selected[i]], duration)
    && forall j :: 0 <= j < i ==> StateFits(comps[selected[j]], duration)
  }

  /** A rigid request is carried out exactly if all can be reserved; else its error is that of the
      first component in the wrong state, or that one is reserved. */
  lemma RigidReserves(comps: Comps, res: Reservations, selected: seq<string>, duration: int)
    requires forall id :: id in selected ==> id in comps
    ensures AllReservable(comps, res, selected, duration) <==>
            forall id :: id in selected ==> CanReserve(comps, res, duration, id)
    ensures var e := RequestError(selected, ReserveCheck(comps, duration));
            && (selected == [] ==> e == ErrNotFound)
            && (selected != [] && (forall id :: id in selected ==> StateFits(comps[id], duration)) ==> e == ErrReserved)
            && (forall i :: FirstUnfit(comps, selected, duration, i) ==>
                  e == if comps[selected[i]].disabled then ErrDisabled else if duration == 0 then ErrUnlocked else ErrLocked)
  {
    var check := ReserveCheck(comps, duration);
    if forall id :: id in selected ==> StateFits(comps[id], duration) {
      NoFirstProblem(selected, check);
    }
    forall i | FirstUnfit(comps, selected, duration, i)
      ensures FirstProblem(selected, check) == check(selected[i])
    {
      forall j | 0 <= j < i ensures check(selected[j]).None? {
        assert selected[j] in selected;
      }
      assert selected[i] in selected;
      SkipGood(selected, i, check);
    }
  }

  // ---- Locking ----

  predicate CanLock(comps: Comps, res: Reservations, newVal: bool, id: string) {
    id in comps && !comps[id].disabled && comps[id].locked != newVal && id !in res
  }

  predicate LockReasonOk(c: Comp, reserved: bool, newVal: bool, reason: Reason) {
    && (reason == Locked <==> c.locked && newVal)
    && (reason == Unlocked <==> !c.locked && !newVal)
    && (reason == Disabled <==> c.locked != newVal && c.disabled)
    && (reason == Reserved <==> c.locked != newVal && !c.disabled && reserved)
    && reason in {Disabled, Unlocked, Locked, Reserved}
  }

  /** A request that was carried out has locked, or unlocked, exactly the selected components that
      were not so, are enabled and are not reserved. */
  lemma LockedExactly(before: Comps, after: Comps, res: Reservations, selected: seq<string>, newVal: bool,
                      result: Outcome)
    requires LockDone(before, after, res, selected, newVal, result) && forall id :: id in selected ==> id in before
    ensures forall id :: id in result.success <==> id in selected && CanLock(before, res, newVal, id)
    ensures forall f :: f in result.failure ==>
              f.id in selected && LockReasonOk(before[f.id], f.id in res, newVal, f.reason)
    ensures ReportsAll(result, selected)
    ensures after.Keys == before.Keys
    ensures forall id :: id in before ==>
              after[id] == Comp(before[id].disabled, if id in result.success then newVal else before[id].locked)
  {
    hide SortedBy, ReportsAll;
    SortedMeans(result, selected, LockReason(before, res, newVal));
  }

  lemma LockableMeans(comps: Comps, res: Reservations, newVal: bool, id: string)
    ensures Lockable(comps, res, newVal, id) <==> CanLock(comps, res, newVal, id)
  {
  }

  predicate FirstFixed(comps: Comps, selected: seq<string>, newVal: bool, i: int)
    requires forall id :: id in selected ==> id in comps
  {
    && 0 <= i < |selected| && comps[selected[i]] != Comp(false, !newVal)
    && forall j :: 0 <= j < i ==> comps[selected[j]] == Comp(false, !newVal)
  }

  /** The error of a rigid request: of the first component that is so already or is disabled, or
      that one is reserved. */
  lemma RigidLockError(comps: Comps, selected: seq<string>, newVal: bool)
    requires forall id :: id in selected ==> id in comps
    ensures var e := RequestError(selected, LockCheck(comps, newVal));
            && (selected == [] ==> e == ErrNotFound)
            && (selected != [] && (forall id :: id in selected ==> comps[id] == Comp(false, !newVal)) ==> e == ErrReserved)
            && (forall i :: FirstFixed(comps, selected, newVal, i) ==>
                  e == if comps[selected[i]].locked != newVal then ErrDisabled else if newVal then ErrLocked else ErrUnlocked)
  {
    var check := LockCheck(comps, newVal);
    if forall id :: id in selected ==> comps[id] == Comp(false, !newVal) {
      NoFirstProblem(selected, check);
    }
    forall i | FirstFixed(comps, selected, newVal, i)
      ensures FirstProblem(selected, check) == check(selected[i])
    {
      forall j | 0 <= j < i ensures check(selected[j]).None? {
        assert selected[j] in selected;
      }
      assert selected[i] in selected;
      SkipGood(selected, i, check);
    }
  }

  // ---- There and back ----

  /** The keys that a reservation of some components returns. */
  function NewKeys(ids: seq<string>, uuid: string): seq<LockKey> {
    seq(|ids|, i requires 0 <= i < |ids| => LockKey(ids[i], ids[i] + ":rk:" + uuid))
  }

  /** Releasing with the keys that a reservation returned, without force, takes back exactly that
      reservation, unless its identifier was in use. */
  lemma ReleaseUndoesReserve(before: Reservations, ids: seq<string>, expires: Option<int>, uuid: string)
    requires forall id :: id in ids ==> id !in before
    requires forall id, other :: id in ids && other in before ==> before[other].key != id + ":rk:" + uuid
    ensures var after, keys := Inserted(before, ids, expires, uuid), NewKeys(ids, uuid);
            && (forall id :: id in after ==> (MatchesSome(after[id], id, keys, false) <==> id in ids))
            && (ids != [] && uuid != "" ==> !BlankKey(keys, false))
            && after - (set id | id in after && MatchesSome(after[id], id, keys, false)) == before
  {
    var after, keys := Inserted(before, ids, expires, uuid), NewKeys(ids, uuid);
    forall id | id in after ensures MatchesSome(after[id], id, keys, false) <==> id in ids {
      forall k | k in keys ensures k.id in ids && k.key == k.id + ":rk:" + uuid {
        var i :| 0 <= i < |keys| && keys[i] == k;
        assert k.id == ids[i];
      }
      if id in ids {
        var i :| 0 <= i < |ids| && ids[i] == id;
        assert keys[i].key == after[id].key;
      }
    }
  }

  /** With force it is the ids that count, whatever the keys. */
  lemma ForcedReleaseById(r: Reservation, id: string, keys: seq<LockKey>)
    ensures MatchesSome(r, id, keys, true) <==> id in KeyIds(keys)
  {
    if id in KeyIds(keys) {
      var i :| 0 <= i < |keys| && KeyIds(keys)[i] == id;
      assert keys[i].id == id;
    }
    if k :| k in keys && k.id == id {
      var i :| 0 <= i < |keys| && keys[i] == k;
      assert KeyIds(keys)[i] == id;
    }
  }

  /** Unforced requests without keys, or with an empty one, are blank; forced ones never are. */
  lemma BlankMeans(keys: seq<LockKey>)
    ensures !BlankKey(keys, true)
    ensures BlankKey([], false)
    ensures keys != [] ==> (BlankKey(keys, false) <==> exists i :: 0 <= i < |keys| && keys[i].key == "")
  {
    if k :| k in keys && k.key == "" {
      var i :| 0 <= i < |keys| && keys[i] == k;
    }
  }

  /** The report of a release or renewal: the keys whose reservation matched are listed as done, the
      others as not found, and none is left out. */
  lemma ReleaseReport(matched: set<string>, keys: seq<LockKey>, result: Outcome)
    requires ReleaseDone(matched, keys, result)
    ensures forall id :: id in result.success <==> id in matched
    ensures forall f :: f in result.failure ==> f.reason == NotFound && f.id !in matched
    ensures |result.success| + |result.failure| == |keys|
    ensures forall i :: 0 <= i < |keys| && keys[i].id !in matched ==> Failure(keys[i].id, NotFound) in result.failure
  {
    PartitionReportsAll(result, KeyIds(keys));
    forall i | 0 <= i < |keys| && keys[i].id !in matched ensures Failure(keys[i].id, NotFound) in result.failure {
      assert KeyIds(keys)[i] in KeyIds(keys);
      var f :| f in result.failure && f.id == keys[i].id;
      assert f == Failure(keys[i].id, NotFound);
    }
  }

  /** A renewal adds and drops no reservation and changes no key; the reservations renewed expire
      at the new time and the others as before. */
  lemma RenewalMeans(before: Reservations, ids: set<string>, time: int)
    ensures var after := WithExpiry(before, ids, time);
            && after.Keys == before.Keys
            && forall id :: id in before ==>
                 && after[id].key == before[id].key
                 && after[id].expires == if id in ids then Some(time) else before[id].expires
  {
    assert WithExpiry(before, ids, time).Keys == before.Keys;
  }

  /** A blank flexible request reports every key as failed, in order. */
  lemma BlankReport(keys: seq<LockKey>)
    ensures |AllFailed(keys)| == |keys|
    ensures forall i :: 0 <= i < |keys| ==> AllFailed(keys)[i] == Failure(keys[i].id, ServerError)
  {
  }
}
