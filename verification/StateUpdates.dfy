/** Bulk updates of component states and flags: which components may change, which do, and
    which are reported. */
module StateUpdates {
  import opened Wrappers
  import opened Strings

  datatype HmsState = Unknown | Empty | Populated | Off | On | Standby | Halt | Ready

  datatype HmsFlag = UnknownFlag | OK | Warning | Alert | Locked

  datatype Row = Row(state: HmsState, flag: HmsFlag)

  type Rows = map<string, Row>

  datatype UpdateError = ArgMissing | BadState | NeedForce

  /** The names are matched without regard to case. */
  function VerifyNormalizeState(s: string): Option<HmsState> {
    var l := ToLower(s);
    if l == "unknown" then Some(Unknown)
    else if l == "empty" then Some(Empty)
    else if l == "populated" then Some(Populated)
    else if l == "off" then Some(Off)
    else if l == "on" then Some(On)
    else if l == "standby" then Some(Standby)
    else if l == "halt" then Some(Halt)
    else if l == "ready" then Some(Ready)
    else None
  }

  function VerifyNormalizeFlag(s: string): Option<HmsFlag> {
    var l := ToLower(s);
    if l == "unknown" then Some(UnknownFlag)
    else if l == "ok" then Some(OK)
    else if l == "warning" || l == "warn" then Some(Warning)
    else if l == "alert" then Some(Alert)
    else if l == "locked" then Some(Locked)
    else None
  }

  /** No flag is OK; an invalid one is none. */
  function VerifyNormalizeFlagOK(s: string): Option<HmsFlag> {
    if s == "" then Some(OK) else VerifyNormalizeFlag(s)
  }

  /** States a component must be in before it is changed to a state; none without force. */
  function StartStates(after: HmsState): set<HmsState> {
    match after
    case Off => {Off, On, Standby, Halt, Ready}
    case On => {On, Off, Standby, Halt}
    case Standby => {Standby, Ready}
    case Halt => {Halt, Ready}
    case Ready => {Ready, On, Off, Standby, Halt}
    case _ => {}
  }

  /** The starting states of an update; an empty set is no restriction. */
  function StartStatesFor(after: HmsState, flag: Option<HmsFlag>, force: bool): Result<set<HmsState>, UpdateError> {
    if after == Ready && flag == Some(Warning) then Ok({Ready})
    else if force then Ok({})
    else if StartStates(after) == {} then Err(NeedForce)
    else Ok(StartStates(after))
  }

  predicate MayStart(start: set<HmsState>, row: Row) {
    start == {} || row.state in start
  }

  /** The row has not both values already; without a valid flag the comparison always holds. */
  predicate Differs(row: Row, state: HmsState, flag: Option<HmsFlag>) {
    row.state != state || Some(row.flag) != flag
  }

  /** The update keeps the flag Locked. */
  function Changed(row: Row, state: HmsState, flag: HmsFlag): Row {
    Row(state, if row.flag == Locked then Locked else flag)
  }

  function Updated(rows: Rows, ids: set<string>, state: HmsState, flag: HmsFlag): Rows {
    map id | id in rows :: if id in ids then Changed(rows[id], state, flag) else rows[id]
  }

  /** The rows that an update reports: allowed to start and not having both values. */
  function Affected(rows: Rows, ids: set<string>, state: HmsState, flag: Option<HmsFlag>,
                    start: set<HmsState>): set<string> {
    set id | id in rows && id in ids && MayStart(start, rows[id]) && Differs(rows[id], state, flag)
  }

  function IdSet(ids: seq<string>): set<string> {
    set id | id in ids
  }

  function OrOK(flag: Option<HmsFlag>): HmsFlag {
    if flag.Some? then flag.value else OK
  }

  /** The flag stored: an invalid flag has become no flag on the way, which is OK. */
  function StoredFlag(flag: string): HmsFlag {
    OrOK(VerifyNormalizeFlagOK(flag))
  }

  /** An invalid state, or one that needs force. */
  predicate Rejected(state: string, flag: HmsFlag, force: bool) {
    VerifyNormalizeState(state).None? || StartStatesFor(VerifyNormalizeState(state).value, Some(flag), force).Err?
  }

  ghost predicate TxDone(before: Rows, after: Rows, ids: set<string>, state: HmsState, flag: HmsFlag, force: bool,
                         noVerify: bool, done: set<string>)
  {
    var start := StartStatesFor(state, Some(flag), force);
    && start.Ok?
    && after == Updated(before, done, state, flag)
    && done == if noVerify then ids * before.Keys else Affected(before, ids, state, Some(flag), start.value)
  }

  /** The flag compared. A single update compares the flag it stores; a bulk update compares
      what it was given. */
  function ComparedFlag(ids: seq<string>, flag: string): Option<HmsFlag> {
    if |ids| == 1 then Some(StoredFlag(flag)) else VerifyNormalizeFlagOK(flag)
  }

  class ComponentTable {
    var rows: Rows

    constructor (rows: Rows)
      ensures this.rows == rows
    {
      this.rows := rows;
    }

    /** `UpdateCompStatesTx`: returns the rows it updated. Without verification it updates the
        ids as given. */
    method UpdateCompStatesTx(ids: set<string>, state: string, flag: Option<HmsFlag>, force: bool, noVerify: bool)
      returns (r: Result<set<string>, UpdateError>)
      modifies this
      ensures r.Err? ==> rows == old(rows)
      ensures r.Ok? ==> VerifyNormalizeState(state).Some?
      ensures r.Ok? ==> TxDone(old(rows), rows, ids, VerifyNormalizeState(state).value, OrOK(flag), force, noVerify, r.value)
      ensures r.Err? <==> Rejected(state, OrOK(flag), force)
      ensures r.Err? ==> r.error == if VerifyNormalizeState(state).None? then BadState else NeedForce
    {
      hide VerifyNormalizeState;
      var nstate := VerifyNormalizeState(state);
      if nstate.None? {
        return Err(BadState);
      }
      var nflag := OrOK(flag);
      var start := StartStatesFor(nstate.value, Some(nflag), force);
      if start.Err? {
        return Err(start.error);
      }
      var matched := if noVerify then ids * rows.Keys else Affected(rows, ids, nstate.value, Some(nflag), start.value);
      rows := Updated(rows, matched, nstate.value, nflag);
      r := Ok(matched);
    }

    /** One id is updated under conditions; several are first selected, then updated. */
    method UpdateCompStates(ids: seq<string>, state: string, flag: string, force: bool)
      returns (r: Result<set<string>, UpdateError>)
      modifies this
      ensures r.Err? ==> rows == old(rows)
      ensures r.Ok? ==> VerifyNormalizeState(state).Some?
      ensures r.Ok? ==> UpdateDone(old(rows), rows, ids, VerifyNormalizeState(state).value, flag, force, r.value)
      ensures r.Err? <==> ids == [] || Rejected(state, StoredFlag(flag), force)
      ensures r.Err? ==> r.error == if ids == [] then ArgMissing else if VerifyNormalizeState(state).None? then BadState else NeedForce
    {
      hide VerifyNormalizeState, VerifyNormalizeFlagOK;
      if |ids| < 1 {
        return Err(ArgMissing);
      }
      var nflag := VerifyNormalizeFlagOK(flag);
      if |ids| == 1 {
        r := UpdateCompStatesTx({ids[0]}, state, nflag, force, false);
        assert {ids[0]} == IdSet(ids);
        return;
      }
      var nstate := VerifyNormalizeState(state);
      if nstate.None? {
        return Err(BadState);
      }
      var start := StartStatesFor(nstate.value, nflag, force);
      if start.Err? {
        return Err(start.error);
      }
      var affected := Affected(rows, IdSet(ids), nstate.value, nflag, start.value);
      if affected != {} {
        var done := UpdateCompStatesTx(affected, state, nflag, true, true);
        assert done.value == affected;
      } else {
        assert Updated(rows, {}, nstate.value, StoredFlag(flag)) == rows;
      }
      r := Ok(affected);
    }
  }

  ghost predicate UpdateDone(before: Rows, after: Rows, ids: seq<string>, state: HmsState, flag: string, force: bool,
                             affected: set<string>)
  {
    var start := StartStatesFor(state, Some(StoredFlag(flag)), force);
    && start.Ok?
    && affected == Affected(before, IdSet(ids), state, ComparedFlag(ids, flag), start.value)
    && after == Updated(before, affected, state, StoredFlag(flag))
  }

  // ---- What is reported ----

  /** The rows reported although they do not change: those that are in the new state already and
      keep their flag, be it because it is Locked or because an invalid flag was compared. */
  ghost predicate ReportedUnchanged(row: Row, ids: seq<string>, state: HmsState, flag: string) {
    row.state == state &&
    if row.flag == Locked then ComparedFlag(ids, flag) != Some(Locked)
    else row.flag == StoredFlag(flag) && ComparedFlag(ids, flag).None?
  }

  /** An update reports every row whose state or flag it changes, and besides them exactly the
      allowed rows of `ReportedUnchanged`. */
  lemma ReportedAreChanged(before: Rows, after: Rows, ids: seq<string>, state: HmsState, flag: string, force: bool,
                           affected: set<string>, id: string)
    requires UpdateDone(before, after, ids, state, flag, force, affected) && id in before
    ensures after.Keys == before.Keys
    ensures after[id] != before[id] ==> id in affected
    ensures id in affected <==>
              || after[id] != before[id]
              || (id in ids && MayStart(StartStatesFor(state, Some(StoredFlag(flag)), force).value, before[id])
                  && ReportedUnchanged(before[id], ids, state, flag))
  {
    hide VerifyNormalizeFlagOK;
  }

  ghost predicate AllowedUnchanged(before: Rows, ids: seq<string>, state: HmsState, flag: string, force: bool, id: string)
    requires StartStatesFor(state, Some(StoredFlag(flag)), force).Ok?
  {
    && id in ids && id in before && MayStart(StartStatesFor(state, Some(StoredFlag(flag)), force).value, before[id])
    && ReportedUnchanged(before[id], ids, state, flag)
  }

  /** The reported rows are just the changed ones if and only if there is no allowed row of
      `ReportedUnchanged` among the given ids. */
  lemma ReportedExactly(before: Rows, after: Rows, ids: seq<string>, state: HmsState, flag: string, force: bool,
                        affected: set<string>)
    requires UpdateDone(before, after, ids, state, flag, force, affected)
    ensures affected == (set id | id in before && after[id] != before[id]) <==>
            !exists id :: AllowedUnchanged(before, ids, state, flag, force, id)
  {
    hide VerifyNormalizeFlagOK, ReportedUnchanged;
    forall id | id in before
      ensures id in affected <==> after[id] != before[id] || AllowedUnchanged(before, ids, state, flag, force, id)
      ensures AllowedUnchanged(before, ids, state, flag, force, id) ==> after[id] == before[id]
    {
      ReportedAreChanged(before, after, ids, state, flag, force, affected, id);
      UnchangedStays(before, after, ids, state, flag, force, affected, id);
    }
  }

  lemma UnchangedStays(before: Rows, after: Rows, ids: seq<string>, state: HmsState, flag: string, force: bool,
                       affected: set<string>, id: string)
    requires UpdateDone(before, after, ids, state, flag, force, affected) && id in before
    ensures ReportedUnchanged(before[id], ids, state, flag) ==> after[id] == before[id]
  {
    hide VerifyNormalizeFlagOK;
  }

  /** Such rows exist: a Locked one, and two with the flag OK when the given flag is invalid. */
  lemma UnchangedCanBeReported(id: string, id': string)
    requires id != id'
    ensures var rows := map[id := Row(On, Locked)]; UpdateDone(rows, rows, [id], On, "", false, {id})
    ensures var rows := map[id := Row(On, OK), id' := Row(On, OK)]; UpdateDone(rows, rows, [id, id'], On, "x", false, {id, id'})
  {
    var one, two := map[id := Row(On, Locked)], map[id := Row(On, OK), id' := Row(On, OK)];
    assert Affected(one, IdSet([id]), On, Some(OK), StartStates(On)) == {id};
    assert IdSet([id, id']) == {id, id'};
    assert ToLower("x") == "x";
    assert Affected(two, IdSet([id, id']), On, None, StartStates(On)) == {id, id'};
  }

  // ---- One by one ----

  /** Updates of one id each, in the order of the ids, with the tables between them and what
      each reports. */
  ghost predicate SinglesDone(tr: seq<Rows>, reports: seq<set<string>>, ids: seq<string>, state: HmsState, flag: string,
                              force: bool)
  {
    && |tr| == |ids| + 1 && |reports| == |ids|
    && forall k :: 0 <= k < |ids| ==> UpdateDone(tr[k], tr[k + 1], [ids[k]], state, flag, force, reports[k])
  }

  /** What an update does to a row of one of its ids. */
  function Result(row: Row, start: set<HmsState>, state: HmsState, flag: HmsFlag): Row {
    if MayStart(start, row) then Changed(row, state, flag) else row
  }

  lemma OneUpdate(before: Rows, after: Rows, x: string, state: HmsState, flag: string, force: bool,
                  report: set<string>, id: string)
    requires UpdateDone(before, after, [x], state, flag, force, report) && id in before
    ensures after.Keys == before.Keys
    ensures var start := StartStatesFor(state, Some(StoredFlag(flag)), force).value;
            && after[id] == (if id == x then Result(before[id], start, state, StoredFlag(flag)) else before[id])
            && (id in report <==> id == x && MayStart(start, before[id]) && Differs(before[id], state, Some(StoredFlag(flag))))
  {
    hide VerifyNormalizeFlagOK, StartStatesFor;
    assert IdSet([x]) == {x};
  }

  /** A row updated once is not changed again, and reported again only if it was reported. */
  lemma AgainTheSame(row: Row, start: set<HmsState>, state: HmsState, flag: HmsFlag)
    ensures var now := Result(row, start, state, flag);
            && Result(now, start, state, flag) == now
            && (MayStart(start, now) && Differs(now, state, Some(flag)) ==> MayStart(start, row) && Differs(row, state, Some(flag)))
  {
  }

  /** What has become of a row, and whether it has been reported, after the first k updates. */
  lemma {:induction false} SinglesSoFar(tr: seq<Rows>, reports: seq<set<string>>, ids: seq<string>, state: HmsState,
                                        flag: string, force: bool, k: nat, id: string)
    requires SinglesDone(tr, reports, ids, state, flag, force) && k <= |ids| && id in tr[0]
    requires StartStatesFor(state, Some(StoredFlag(flag)), force).Ok?
    ensures tr[k].Keys == tr[0].Keys
    ensures var start := StartStatesFor(state, Some(StoredFlag(flag)), force).value;
            && tr[k][id] == (if id in ids[..k] then Result(tr[0][id], start, state, StoredFlag(flag)) else tr[0][id])
            && ((exists j :: 0 <= j < k && id in reports[j]) <==>
                id in ids[..k] && MayStart(start, tr[0][id]) && Differs(tr[0][id], state, Some(StoredFlag(flag))))
  {
    hide UpdateDone, VerifyNormalizeFlagOK, StartStatesFor, MayStart, Differs, Result;
    if k > 0 {
      SinglesSoFar(tr, reports, ids, state, flag, force, k - 1, id);
      assert ids[..k] == ids[..k - 1] + [ids[k - 1]];
      assert UpdateDone(tr[k - 1], tr[k - 1 + 1], [ids[k - 1]], state, flag, force, reports[k - 1]);
      OneUpdate(tr[k - 1], tr[k], ids[k - 1], state, flag, force, reports[k - 1], id);
      AgainTheSame(tr[0][id], StartStatesFor(state, Some(StoredFlag(flag)), force).value, state, StoredFlag(flag));
      assert (exists j :: 0 <= j < k && id in reports[j]) <==>
             (exists j :: 0 <= j < k - 1 && id in reports[j]) || id in reports[k - 1];
    }
  }

  /** An update of several ids at once leaves the table that updates of one id each leave, even
      when ids repeat. It reports what they report together if the flag is valid, and otherwise at
      least that. */
  lemma BulkIsSingles(after: Rows, ids: seq<string>, state: HmsState, flag: string, force: bool, affected: set<string>,
                      tr: seq<Rows>, reports: seq<set<string>>)
    requires SinglesDone(tr, reports, ids, state, flag, force) && UpdateDone(tr[0], after, ids, state, flag, force, affected)
    ensures tr[|ids|] == after
    ensures forall j, id :: 0 <= j < |reports| && id in reports[j] ==> id in affected
    ensures VerifyNormalizeFlagOK(flag).Some? ==>
              forall id :: id in affected ==> exists j :: 0 <= j < |reports| && id in reports[j]
  {
    assert ids[..|ids|] == ids;
    forall id | id in tr[0]
      ensures tr[|ids|].Keys == tr[0].Keys && tr[|ids|][id] == after[id]
      ensures (exists j :: 0 <= j < |ids| && id in reports[j]) ==> id in affected
      ensures VerifyNormalizeFlagOK(flag).Some? && id in affected ==> exists j :: 0 <= j < |ids| && id in reports[j]
    {
      SinglesSoFar(tr, reports, ids, state, flag, force, |ids|, id);
      hide VerifyNormalizeFlagOK, StartStatesFor;
    }
    forall j | 0 <= j < |ids| ensures reports[j] <= tr[0].Keys {
      KeysStay(tr, reports, ids, state, flag, force, j);
    }
    KeysStay(tr, reports, ids, state, flag, force, |ids|);
  }

  lemma {:induction false} KeysStay(tr: seq<Rows>, reports: seq<set<string>>, ids: seq<string>, state: HmsState,
                                    flag: string, force: bool, k: nat)
    requires SinglesDone(tr, reports, ids, state, flag, force) && k <= |ids|
    ensures tr[k].Keys == tr[0].Keys && (k < |ids| ==> reports[k] <= tr[0].Keys)
  {
    hide VerifyNormalizeFlagOK, StartStatesFor;
    if k < |ids| {
      assert UpdateDone(tr[k], tr[k + 1], [ids[k]], state, flag, force, reports[k]);
    }
    if k > 0 {
      KeysStay(tr, reports, ids, state, flag, force, k - 1);
      assert UpdateDone(tr[k - 1], tr[k - 1 + 1], [ids[k - 1]], state, flag, force, reports[k - 1]);
    }
  }

  // ---- The select of a bulk update ----

  /** A bulk update selects its rows without locking them, and then updates the rows selected as
      if forced: `read` is the table it selected from, `before` the one it updates. */
  ghost predicate UnlockedUpdate(read: Rows, before: Rows, after: Rows, ids: seq<string>, state: HmsState, flag: string,
                                 force: bool, affected: set<string>)
  {
    var start := StartStatesFor(state, Some(StoredFlag(flag)), force);
    && start.Ok?
    && affected == Affected(read, IdSet(ids), state, ComparedFlag(ids, flag), start.value)
    && after == Updated(before, affected, state, StoredFlag(flag))
  }

  /** If nobody changes a row of its ids in between, that is the update in one step. */
  lemma UndisturbedUpdate(read: Rows, before: Rows, after: Rows, ids: seq<string>, state: HmsState, flag: string,
                          force: bool, affected: set<string>)
    requires UnlockedUpdate(read, before, after, ids, state, flag, force, affected)
    requires forall id :: id in ids ==> (id in read <==> id in before) && (id in read ==> read[id] == before[id])
    ensures UpdateDone(before, after, ids, state, flag, force, affected)
  {
    hide VerifyNormalizeFlagOK, StartStatesFor;
  }

  /** In any case, an unforced one keeps to the transition table if and only if every row selected
      that has another state by then is still in a state the new one may follow. */
  lemma UnlockedFollowsTable(read: Rows, before: Rows, after: Rows, ids: seq<string>, state: HmsState, flag: string,
                             affected: set<string>)
    requires UnlockedUpdate(read, before, after, ids, state, flag, false, affected)
    ensures (forall id :: id in before && after[id].state != before[id].state ==> before[id].state in StartStates(after[id].state))
            <==> forall id :: id in affected && id in before && before[id].state != state ==> before[id].state in StartStates(state)
  {
    hide VerifyNormalizeFlagOK, StartStatesFor, Affected;
  }

  /** It need not be: of two components selected for Ready one is emptied by force before the
      update, which makes it Ready all the same. */
  lemma EmptiedCanBecomeReady(id: string, id': string)
    requires id != id'
    ensures var read := map[id := Row(Off, OK), id' := Row(Off, OK)];
            var before := map[id := Row(Empty, OK), id' := Row(Off, OK)];
            var after := map[id := Row(Ready, OK), id' := Row(Ready, OK)];
            && UpdateDone(read, before, [id], Empty, "", true, {id})
            && UnlockedUpdate(read, before, after, [id, id'], Ready, "", false, {id, id'})
            && before[id].state !in StartStates(after[id].state)
  {
    var read := map[id := Row(Off, OK), id' := Row(Off, OK)];
    assert IdSet([id]) == {id} && IdSet([id, id']) == {id, id'};
    assert Affected(read, {id}, Empty, Some(OK), {}) == {id};
    assert Affected(read, {id, id'}, Ready, Some(OK), StartStates(Ready)) == {id, id'};
  }

  // ---- Transitions ----

  /** A step of a run of unforced updates. */
  ghost predicate UnforcedStep(before: Rows, after: Rows) {
    exists ids, state, flag, affected :: UpdateDone(before, after, ids, state, flag, false, affected)
  }

  /** Every change of state in an unforced update is one that the transition table allows. */
  lemma UnforcedFollowsTable(before: Rows, after: Rows, id: string)
    requires UnforcedStep(before, after) && id in before
    ensures after.Keys == before.Keys
    ensures after[id].state != before[id].state ==> before[id].state in StartStates(after[id].state)
  {
    var ids, state, flag, affected :| UpdateDone(before, after, ids, state, flag, false, affected);
  }

  /** An update to Ready with a warning, even forced, touches only components already Ready. */
  lemma ReadyWarningTouchesReady(before: Rows, after: Rows, ids: seq<string>, flag: string, force: bool,
                                 affected: set<string>, id: string)
    requires UpdateDone(before, after, ids, Ready, flag, force, affected) && StoredFlag(flag) == Warning
    requires id in before && id in affected
    ensures before[id].state == Ready && after[id].state == Ready
  {
  }

  /** A step of a run of any updates, in which Ready is only ever set with a warning. */
  ghost predicate LateStep(before: Rows, after: Rows) {
    exists ids, state, flag, force, affected ::
      UpdateDone(before, after, ids, state, flag, force, affected) && (state == Ready ==> StoredFlag(flag) == Warning)
  }

  lemma LateStepKeeps(before: Rows, after: Rows, id: string)
    requires LateStep(before, after) && id in before
    ensures id in after && (before[id].state != Ready ==> after[id].state != Ready)
  {
    var ids, state, flag, force, affected :|
      UpdateDone(before, after, ids, state, flag, force, affected) && (state == Ready ==> StoredFlag(flag) == Warning);
    if state == Ready && id in affected {
      ReadyWarningTouchesReady(before, after, ids, flag, force, affected, id);
    }
  }

  /** Warnings of late heartbeats revive nothing: over any run of updates, forced or not, in which
      Ready is only set with a warning, a component that is not Ready never becomes Ready. */
  lemma {:induction false} LateWarningsReviveNothing(tr: seq<Rows>, i: nat, j: nat, id: string)
    requires i <= j < |tr| && (forall k :: 0 <= k < |tr| - 1 ==> LateStep(tr[k], tr[k + 1]))
    requires id in tr[i] && tr[i][id].state != Ready
    ensures id in tr[j] && tr[j][id].state != Ready
  {
    if i < j {
      hide LateStep;
      LateWarningsReviveNothing(tr, i, j - 1, id);
      assert LateStep(tr[j - 1], tr[j - 1 + 1]);
      LateStepKeeps(tr[j - 1], tr[j], id);
    }
  }

  /** States that only discovery enters or leaves. */
  predicate Inventory(s: HmsState) {
    s.Unknown? || s.Empty? || s.Populated?
  }

  /** Over any run of unforced updates, no component enters or leaves the states Unknown, Empty
      and Populated. */
  lemma {:induction false} InventoryStatesAreFixed(tr: seq<Rows>, i: nat, id: string)
    requires i < |tr| && (forall j :: 0 <= j < |tr| - 1 ==> UnforcedStep(tr[j], tr[j + 1])) && id in tr[0]
    ensures id in tr[i]
    ensures Inventory(tr[0][id].state) ==> tr[i][id].state == tr[0][id].state
    ensures !Inventory(tr[0][id].state) ==> !Inventory(tr[i][id].state)
  {
    if i > 0 {
      hide UnforcedStep;
      InventoryStatesAreFixed(tr, i - 1, id);
      assert UnforcedStep(tr[i - 1], tr[i - 1 + 1]);
      UnforcedFollowsTable(tr[i - 1], tr[i], id);
    }
  }

  /** The transitions that the README of the service lists. */
  function DocumentedStartStates(after: HmsState): set<HmsState> {
    match after
    case Off => {Off, On, Standby, Halt, Ready}
    case On => {On, Off, Standby, Halt, Ready}
    case Standby => {Standby, Ready}
    case Halt => {Halt, Ready}
    case Ready => {Ready, On}
    case _ => {}
  }

  /** The table used and the table documented differ in exactly four transitions: Ready to On is
      documented only; Off, Standby and Halt to Ready are allowed only. */
  lemma DocumentedTableDiffers(from: HmsState, after: HmsState)
    ensures (from in StartStates(after)) != (from in DocumentedStartStates(after)) <==>
            (from == Ready && after == On) || (from in {Off, Standby, Halt} && after == Ready)
  {
  }

  /** The state of a row stays or changes as documented. */
  predicate FollowsDocs(before: Row, after: Row) {
    after.state == before.state || before.state in DocumentedStartStates(after.state)
  }

  predicate StartsUnready(row: Row) {
    row.state in {Off, Standby, Halt}
  }

  /** An unforced update keeps to the documented table if and only if it is none to Ready with a
      component among its ids that is Off, Standby or Halt, or its flag is Warning. */
  lemma UpdateFollowsDocs(before: Rows, after: Rows, ids: seq<string>, state: HmsState, flag: string, affected: set<string>)
    requires UpdateDone(before, after, ids, state, flag, false, affected)
    ensures (forall id :: id in before ==> FollowsDocs(before[id], after[id])) <==>
            !(state == Ready && StoredFlag(flag) != Warning && exists id :: id in ids && id in before && StartsUnready(before[id]))
  {
    hide VerifyNormalizeFlagOK, DocumentedStartStates;
    forall id | id in before
      ensures !FollowsDocs(before[id], after[id]) <==>
              id in ids && state == Ready && StoredFlag(flag) != Warning && StartsUnready(before[id])
    {
      DocumentedTableDiffers(before[id].state, after[id].state);
      DocumentedTableDiffers(before[id].state, state);
    }
  }

  /** Such an update changes the row: from Off to Ready. */
  lemma OffCanBecomeReady(id: string)
    ensures var before, after := map[id := Row(Off, OK)], map[id := Row(Ready, OK)];
            UpdateDone(before, after, [id], Ready, "", false, {id}) && !FollowsDocs(before[id], after[id])
  {
    assert Affected(map[id := Row(Off, OK)], IdSet([id]), Ready, Some(OK), StartStates(Ready)) == {id};
  }

  /** Over any run of unforced updates, the state of a component changes only as documented if
      and only if it never goes from Off, Standby or Halt to Ready. */
  lemma RunFollowsDocs(tr: seq<Rows>, id: string)
    requires tr != [] && (forall j :: 0 <= j < |tr| - 1 ==> UnforcedStep(tr[j], tr[j + 1])) && id in tr[0]
    ensures forall j :: 0 <= j < |tr| ==> id in tr[j]
    ensures (forall j :: 0 <= j < |tr| - 1 ==> FollowsDocs(tr[j][id], tr[j + 1][id])) <==>
            (forall j :: 0 <= j < |tr| - 1 ==> !(StartsUnready(tr[j][id]) && tr[j + 1][id].state == Ready))
  {
    hide UnforcedStep, DocumentedStartStates;
    forall j | 0 <= j < |tr| ensures id in tr[j] {
      InventoryStatesAreFixed(tr, j, id);
    }
    forall j | 0 <= j < |tr| - 1
      ensures FollowsDocs(tr[j][id], tr[j + 1][id]) <==> !(StartsUnready(tr[j][id]) && tr[j + 1][id].state == Ready)
    {
      assert UnforcedStep(tr[j], tr[j + 1]);
      UnforcedFollowsTable(tr[j], tr[j + 1], id);
      DocumentedTableDiffers(tr[j][id].state, tr[j + 1][id].state);
      ReadyIsUndocumented(tr[j][id]);
    }
  }

  lemma ReadyIsUndocumented(row: Row)
    ensures StartsUnready(row) ==> row.state != Ready && row.state !in DocumentedStartStates(Ready)
  {
  }
}
