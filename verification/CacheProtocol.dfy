/** Threads looking up component endpoints through the shared cache, interleaved with each
    other's rebuilds and with arbitrary changes of the database. */
module CacheProtocol {
  import opened Wrappers
  import opened CompEndpointCache

  /** The three lookups: by id, by URI under an endpoint, and the children of an endpoint. */
  datatype Query =
    | ValueOf(id: string)
    | UriOf(id: string, uri: string)
    | ChildrenOf(id: string)

  datatype Answer = Missing | Row(row: CompEndpoint) | Key(key: string)

  /** One cached read. An empty string counts as missing. */
  function Ask(c: Cache, q: Query): Answer {
    match q
    case ValueOf(id) => if id in c.valStore then Row(c.valStore[id]) else Missing
    case UriOf(id, uri) => AskKey(c, UriKey(id, uri))
    case ChildrenOf(id) => AskKey(c, ChildrenKey(id))
  }

  function AskKey(c: Cache, key: string): Answer {
    if key in c.keyLookup && c.keyLookup[key] != "" then Key(c.keyLookup[key]) else Missing
  }

  predicate IsDigit(c: char) { '0' <= c <= '9' }

  /** Xnames of the form xXmM, which have no ComponentEndpoint of their own. */
  predicate IsCabinetPduController(x: string) {
    && 4 <= |x| <= 7
    && x[0] == 'x' && x[|x| - 2] == 'm' && '0' <= x[|x| - 1] <= '3'
    && forall i :: 1 <= i < |x| - 2 ==> IsDigit(x[i])
  }

  /** Whether the direct database check for an xname finds any row. */
  ghost predicate CheckFinds(db: Rows, xname: string) {
    if IsCabinetPduController(xname) then exists r :: r in db && r.rfEndpointId == xname
    else HasId(db, xname)
  }

  /** The table at this moment would both pass the check and, once cached, answer the query. */
  ghost predicate Answerable(db: Rows, q: Query) {
    CheckFinds(db, q.id) && Ask(BuildCache(db), q) != Missing
  }

  datatype Outcome =
    | Found(answer: Answer)
    | NotInDb      // the check found no row
    | NotCached    // the check found a row, yet the cache never answered
    | Failed       // a database error was returned

  /** Where a call stands. `round` is the loop counter of the lookup function, `snum` the sync
      number its last cached read returned, `tries` the retries used by the inner loops. */
  datatype Pc =
    | Begin
    | Checking(round: nat, snum: int, tries: nat)
    | Syncing(round: nat, snum: int, tries: nat)
    | Holding(round: nat, snum: int, tries: nat)
    | Building(round: nat, snum: int, snapshot: Rows)
    | Rereading(round: nat, didUpdate: bool)
    | Done(outcome: Outcome)

  datatype Thread = Thread(query: Query, pc: Pc)

  datatype State = State(
    db: Rows,
    cs: CacheState,
    writer: Option<nat>,         // the thread holding the write lock
    threads: map<nat, Thread>)

  datatype DbReply = Replied | DriverError | DbError

  datatype Action =
    | ChangeDb(rows: Rows)
    | Call(t: nat, query: Query)
    | Read(t: nat)
    | Check(t: nat, reply: DbReply)
    | Acquire(t: nat)
    | Fetch(t: nat, ok: bool)
    | Publish(t: nat)

  const ROUNDS := 2
  const RETRIES := 3

  /** After the cached read that ends a round: stop with an answer, stop because the rounds
      are used up or this thread's own sync did not help, or check the database (again). */
  function AfterRead(round: nat, ans: Answer, snum: int, didUpdate: bool): Pc {
    if ans != Missing then Done(Found(ans))
    else if round == ROUNDS || didUpdate then Done(NotCached)
    else Checking(round, snum, 0)
  }

  ghost predicate Enabled(s: State, a: Action) {
    match a
    case ChangeDb(_) => true
    case Call(t, _) => t in s.threads ==> s.threads[t].pc.Done?
    case Read(t) => t in s.threads && (s.threads[t].pc.Begin? || s.threads[t].pc.Rereading?) && s.writer.None?
    case Check(t, _) => t in s.threads && s.threads[t].pc.Checking?
    case Acquire(t) => t in s.threads && s.threads[t].pc.Syncing? && s.writer.None?
    case Fetch(t, _) => t in s.threads && s.threads[t].pc.Holding?
    case Publish(t) => t in s.threads && s.threads[t].pc.Building?
  }

  function SetPc(s: State, t: nat, pc: Pc): State
    requires t in s.threads
  {
    s.(threads := s.threads[t := s.threads[t].(pc := pc)])
  }

  ghost function Apply(s: State, a: Action): State
    requires Enabled(s, a)
  {
    match a
    case ChangeDb(rows) => s.(db := rows)
    case Call(t, q) => s.(threads := s.threads[t := Thread(q, Begin)])
    case Read(t) =>
      var ans := Ask(s.cs.cache, s.threads[t].query);
      var pc := s.threads[t].pc;
      if pc.Begin? then SetPc(s, t, AfterRead(0, ans, s.cs.syncNum, false))
      else SetPc(s, t, AfterRead(pc.round + 1, ans, s.cs.syncNum, pc.didUpdate))
    case Check(t, reply) =>
      var pc := s.threads[t].pc;
      (match reply
       case Replied =>
         SetPc(s, t, if CheckFinds(s.db, s.threads[t].query.id) then Syncing(pc.round, pc.snum, 0)
                     else Done(NotInDb))
       case DriverError => SetPc(s, t, Done(Failed))
       case DbError =>
         SetPc(s, t, if pc.tries + 1 < RETRIES then Checking(pc.round, pc.snum, pc.tries + 1)
                     else Done(Failed)))
    case Acquire(t) =>
      var pc := s.threads[t].pc;
      if s.cs.syncNum != pc.snum then SetPc(s, t, Rereading(pc.round, false))
      else SetPc(s, t, Holding(pc.round, pc.snum, pc.tries)).(writer := Some(t))
    case Fetch(t, ok) =>
      var pc := s.threads[t].pc;
      if ok then SetPc(s, t, Building(pc.round, pc.snum, s.db))
      else SetPc(s, t, if pc.tries + 1 < RETRIES then Syncing(pc.round, pc.snum, pc.tries + 1)
                       else Done(Failed)).(writer := None)
    case Publish(t) =>
      var pc := s.threads[t].pc;
      SetPc(s, t, Rereading(pc.round, true))
        .(writer := None, cs := TrySyncResult(s.cs, pc.snum, Some(pc.snapshot)).0)
  }

  /** A run: actions and the states between them, from an empty cache over any table. */
  ghost predicate Run(tr: seq<State>, acts: seq<Action>) {
    && |tr| == |acts| + 1
    && tr[0].cs == CacheState(EmptyCache, 0) && tr[0].writer.None? && tr[0].threads == map[]
    && forall i :: 0 <= i < |acts| ==> Enabled(tr[i], acts[i]) && tr[i + 1] == Apply(tr[i], acts[i])
  }

  // ---- The lock ----

  predicate InLock(pc: Pc) { pc.Holding? || pc.Building? }

  /** The thread inside the lock is the recorded writer, and it entered with the current
      sync number; so its rebuild is never skipped. */
  ghost predicate LockInv(s: State) {
    && (s.writer.Some? ==> s.writer.value in s.threads && InLock(s.threads[s.writer.value].pc))
    && (forall t :: t in s.threads && InLock(s.threads[t].pc) ==> s.writer == Some(t))
    && (forall t :: t in s.threads && InLock(s.threads[t].pc) ==> s.threads[t].pc.snum == s.cs.syncNum)
  }

  lemma LockInvStep(s: State, a: Action)
    requires LockInv(s) && Enabled(s, a)
    ensures LockInv(Apply(s, a))
  {
  }

  lemma {:induction false} LockInvHolds(tr: seq<State>, acts: seq<Action>, i: nat)
    requires Run(tr, acts) && i < |tr|
    ensures LockInv(tr[i])
  {
    if i > 0 {
      LockInvHolds(tr, acts, i - 1);
      LockInvStep(tr[i - 1], acts[i - 1]);
    }
  }

  // ---- Two rounds suffice ----

  ghost predicate BuildsHave(s: State, q: Query) {
    forall w :: w in s.threads && s.threads[w].pc.Building? ==>
                  Ask(BuildCache(s.threads[w].pc.snapshot), q) != Missing
  }

  predicate CacheHas(s: State, q: Query) {
    Ask(s.cs.cache, q) != Missing
  }

  /** From the moment a call's first check finds its endpoint, on a table that stays answerable:
      what is known at each place of the call. In the second round every rebuild in progress
      or finished since the thread last read the cache has the answer. */
  ghost predicate CallInv(s: State, t: nat) {
    && t in s.threads
    && var q := s.threads[t].query;
       match s.threads[t].pc
       case Begin => false
       case Checking(round, snum, _) => round == 1 && SecondRound(s, q, snum)
       case Syncing(round, snum, _) => round == 0 || (round == 1 && SecondRound(s, q, snum))
       case Holding(round, _, _) => round == 0 || (round == 1 && BuildsHave(s, q))
       case Building(round, _, snapshot) => round <= 1 && Ask(BuildCache(snapshot), q) != Missing
       case Rereading(round, did) => round <= 1 && (did || round == 1 ==> CacheHas(s, q) && BuildsHave(s, q))
       case Done(o) => o.Found? || o.Failed?
  }

  ghost predicate SecondRound(s: State, q: Query, snum: int) {
    BuildsHave(s, q) && (s.cs.syncNum != snum ==> CacheHas(s, q))
  }

  lemma CallInvOwnStep(s: State, a: Action, t: nat)
    requires LockInv(s) && CallInv(s, t) && Enabled(s, a) && Answerable(s.db, s.threads[t].query)
    requires !a.ChangeDb? && !a.Call? && a.t == t
    ensures CallInv(Apply(s, a), t)
  {
    hide Ask, BuildCache, CheckFinds, IsCabinetPduController;
    var s' := Apply(s, a);
    var q := s.threads[t].query;
    if BuildsHave(s, q) && !a.Fetch? {
      assert BuildsHave(s', q);
    }
    if a.Read? {
      // No writer, so no rebuild is in progress.
      assert BuildsHave(s', q);
    }
  }

  lemma CallInvOtherStep(s: State, a: Action, t: nat)
    requires LockInv(s) && CallInv(s, t) && Enabled(s, a) && Answerable(s.db, s.threads[t].query)
    requires !a.ChangeDb? && a.t != t
    ensures CallInv(Apply(s, a), t)
  {
    hide Ask, BuildCache, CheckFinds, IsCabinetPduController;
    var s' := Apply(s, a);
    var q := s.threads[t].query;
    assert s'.threads[t] == s.threads[t];
    if BuildsHave(s, q) {
      assert BuildsHave(s', q);
      if a.Publish? {
        assert CacheHas(s', q);
      } else {
        assert s'.cs == s.cs;
      }
    }
  }

  lemma CallInvStep(s: State, a: Action, t: nat)
    requires LockInv(s) && CallInv(s, t) && Enabled(s, a) && Answerable(s.db, s.threads[t].query)
    requires !(a.Call? && a.t == t)
    ensures CallInv(Apply(s, a), t)
  {
    if !a.ChangeDb? && a.t == t {
      CallInvOwnStep(s, a, t);
    } else if !a.ChangeDb? {
      CallInvOtherStep(s, a, t);
    }
  }

  /** The action at index c is the first-round database check of thread t, and it finds a row. */
  ghost predicate FirstCheckFinds(tr: seq<State>, acts: seq<Action>, t: nat, c: nat)
    requires Run(tr, acts)
  {
    && c < |acts| && acts[c] == Check(t, Replied)
    && tr[c].threads[t].pc.round == 0
    && CheckFinds(tr[c].db, tr[c].threads[t].query.id)
  }

  ghost predicate NoNewCall(acts: seq<Action>, t: nat, a: nat, b: nat)
  {
    forall i :: a <= i < b && i < |acts| && acts[i].Call? ==> acts[i].t != t
  }

  lemma {:induction false} CallInvHolds(tr: seq<State>, acts: seq<Action>, t: nat, c: nat, b: nat)
    requires Run(tr, acts) && FirstCheckFinds(tr, acts, t, c) && c < b < |tr|
    requires NoNewCall(acts, t, c, b)
    requires forall k :: c <= k < b ==> Answerable(tr[k].db, tr[c].threads[t].query)
    ensures CallInv(tr[b], t) && tr[b].threads[t].query == tr[c].threads[t].query
  {
    hide Ask, BuildCache, CheckFinds, IsCabinetPduController, LockInv;
    LockInvHolds(tr, acts, b - 1);
    if b - 1 == c {
      assert tr[b] == Apply(tr[c], acts[c]);
    } else {
      CallInvHolds(tr, acts, t, c, b - 1);
      CallInvStep(tr[b - 1], acts[b - 1], t);
    }
  }

  /** Two rounds suffice. Whatever other threads and the database do, a call whose first
      check finds its endpoint ends with the answer or with a database error as long as the
      table stays answerable, even when every rebuild was done by other threads. */
  lemma TwoRoundsSuffice(tr: seq<State>, acts: seq<Action>, t: nat, c: nat, b: nat)
    requires Run(tr, acts) && FirstCheckFinds(tr, acts, t, c) && c < b < |tr|
    requires NoNewCall(acts, t, c, b) && t in tr[b].threads && tr[b].threads[t].pc.Done?
    requires forall k :: c <= k < b ==> Answerable(tr[k].db, tr[c].threads[t].query)
    ensures tr[b].threads[t].pc.outcome.Found? || tr[b].threads[t].pc.outcome.Failed?
  {
    CallInvHolds(tr, acts, t, c, b);
  }

  // ---- A miss is always justified ----

  ghost predicate WholeCallInv(s: State, t: nat) {
    && t in s.threads
    && (|| s.threads[t].pc.Begin?
        || (s.threads[t].pc.Checking? && s.threads[t].pc.round == 0)
        || CallInv(s, t))
  }

  lemma WholeCallInvStep(s: State, a: Action, t: nat)
    requires LockInv(s) && WholeCallInv(s, t) && Enabled(s, a) && Answerable(s.db, s.threads[t].query)
    requires !(a.Call? && a.t == t)
    ensures WholeCallInv(Apply(s, a), t)
  {
    hide Ask, BuildCache, CheckFinds, IsCabinetPduController;
    if CallInv(s, t) {
      CallInvStep(s, a, t);
    }
  }

  lemma {:induction false} WholeCallInvHolds(tr: seq<State>, acts: seq<Action>, t: nat, q: Query, a: nat, b: nat)
    requires Run(tr, acts) && a < b < |tr| && acts[a] == Call(t, q) && NoNewCall(acts, t, a + 1, b)
    requires forall k :: a < k < b ==> Answerable(tr[k].db, q)
    ensures WholeCallInv(tr[b], t) && tr[b].threads[t].query == q
  {
    hide Ask, BuildCache, CheckFinds, IsCabinetPduController, LockInv;
    if b == a + 1 {
      assert tr[b] == Apply(tr[a], acts[a]);
    } else {
      WholeCallInvHolds(tr, acts, t, q, a, b - 1);
      LockInvHolds(tr, acts, b - 1);
      WholeCallInvStep(tr[b - 1], acts[b - 1], t);
    }
  }

  /** A call that reports its endpoint missing does so only if at some moment between its
      start and its end the table could not have answered it. */
  lemma MissesAreJustified(tr: seq<State>, acts: seq<Action>, t: nat, q: Query, a: nat, b: nat)
    requires Run(tr, acts) && a < b < |tr| && acts[a] == Call(t, q) && NoNewCall(acts, t, a + 1, b)
    requires t in tr[b].threads && tr[b].threads[t].pc in {Done(NotInDb), Done(NotCached)}
    ensures exists k :: a < k < b && !Answerable(tr[k].db, q)
  {
    if forall k :: a < k < b ==> Answerable(tr[k].db, q) {
      WholeCallInvHolds(tr, acts, t, q, a, b);
      assert false;
    }
  }

  /** For a lookup by id, being answerable is just being in the table. */
  lemma AnswerableValue(db: Rows, id: string)
    requires UniqueIds(db) && !IsCabinetPduController(id)
    ensures Answerable(db, ValueOf(id)) <==> HasId(db, id)
  {
    ValuesAgree(db, id);
  }

  /** For the children of an endpoint: the endpoint is found and some row names it. */
  lemma AnswerableChildren(db: Rows, id: string)
    requires WellFormed(db) && ':' !in id
    ensures Answerable(db, ChildrenOf(id)) <==> CheckFinds(db, id) && ChildIds(db, id) != []
  {
    ChildrenAgree(db, id);
    if ChildIds(db, id) != [] && BuildCache(db).keyLookup[ChildrenKey(id)] == "" {
      ChildrenRoundTrip(db, id);
      assert ChildIds(db, id)[0] in ChildIds(db, id);
      ChildIdsAreRowIds(db, id);
      assert false;
    }
  }

  lemma AnswerableUri(db: Rows, id: string, uri: string)
    requires WellFormed(db) && ':' !in id && uri != "" && uri[0] == '/'
    ensures Answerable(db, UriOf(id, uri)) <==> CheckFinds(db, id) && IdAtUri(db, id, uri).Some?
  {
    UrisAgree(db, id, uri);
    IdAtUriIsRowId(db, id, uri);
  }

  lemma {:induction false} IdAtUriIsRowId(db: Rows, id: string, uri: string)
    ensures IdAtUri(db, id, uri).Some? ==> HasId(db, IdAtUri(db, id, uri).value)
  {
    if db != [] {
      IdAtUriIsRowId(db[..|db| - 1], id, uri);
      var last := db[|db| - 1];
      assert last in db;
      if UriKey(last.rfEndpointId, last.odataId) != UriKey(id, uri) && IdAtUri(db, id, uri).Some? {
        var r :| r in db[..|db| - 1] && r.id == IdAtUri(db, id, uri).value;
        assert r in db;
      }
    }
  }

  /** A cabinet PDU controller without a row of its own is the exception: its children make
      the check succeed, but no table answers a lookup of its id. */
  lemma PduControllersAreNotAnswerable(db: Rows, id: string)
    requires UniqueIds(db) && IsCabinetPduController(id) && !HasId(db, id)
    ensures !Answerable(db, ValueOf(id))
  {
    ValuesAgree(db, id);
  }

  // ---- Every answer was true of the table at some moment ----

  ghost predicate FromTable(past: seq<Rows>, c: Cache) {
    exists db :: db in past && c == BuildCache(db)
  }

  ghost predicate AnswerFromTable(past: seq<Rows>, q: Query, ans: Answer) {
    exists db :: db in past && ans == Ask(BuildCache(db), q)
  }

  ghost predicate AnswersFromTable(s: State, past: seq<Rows>) {
    forall t :: t in s.threads && s.threads[t].pc.Done? && s.threads[t].pc.outcome.Found? ==>
                  AnswerFromTable(past, s.threads[t].query, s.threads[t].pc.outcome.answer)
  }

  /** `past` holds every table the run has seen so far. */
  ghost predicate ProvenanceInv(s: State, past: seq<Rows>) {
    && (s.cs.cache == EmptyCache || FromTable(past, s.cs.cache))
    && (forall t :: t in s.threads && s.threads[t].pc.Building? ==> s.threads[t].pc.snapshot in past)
    && AnswersFromTable(s, past)
  }

  lemma ProvenanceStep(s: State, a: Action, past: seq<Rows>)
    requires Enabled(s, a) && s.db in past && ProvenanceInv(s, past)
    ensures ProvenanceInv(Apply(s, a), past)
  {
    var s' := Apply(s, a);
    if a.Publish? {
      assert FromTable(past, BuildCache(s.threads[a.t].pc.snapshot));
    } else {
      assert s'.cs == s.cs;
    }
    if a.Read? && Ask(s.cs.cache, s.threads[a.t].query) != Missing {
      var db :| db in past && s.cs.cache == BuildCache(db);
      assert AnswerFromTable(past, s.threads[a.t].query, Ask(s.cs.cache, s.threads[a.t].query));
    }
    assert AnswersFromTable(s', past);
  }

  lemma ProvenanceGrows(s: State, past: seq<Rows>, db: Rows)
    requires ProvenanceInv(s, past)
    ensures ProvenanceInv(s, past + [db])
  {
    if FromTable(past, s.cs.cache) {
      var d :| d in past && s.cs.cache == BuildCache(d);
      assert d in past + [db];
    }
    forall t | t in s.threads && s.threads[t].pc.Done? && s.threads[t].pc.outcome.Found?
      ensures AnswerFromTable(past + [db], s.threads[t].query, s.threads[t].pc.outcome.answer)
    {
      var d :| d in past && s.threads[t].pc.outcome.answer == Ask(BuildCache(d), s.threads[t].query);
      assert d in past + [db];
    }
  }

  ghost function Tables(tr: seq<State>): seq<Rows> {
    if tr == [] then [] else Tables(tr[..|tr| - 1]) + [tr[|tr| - 1].db]
  }

  lemma {:induction false} ProvenanceHolds(tr: seq<State>, acts: seq<Action>, i: nat)
    requires Run(tr, acts) && i < |tr|
    ensures ProvenanceInv(tr[i], Tables(tr[..i + 1])) && tr[i].db in Tables(tr[..i + 1])
  {
    assert tr[..i + 1][..i] == tr[..i];
    if i > 0 {
      ProvenanceHolds(tr, acts, i - 1);
      ProvenanceStep(tr[i - 1], acts[i - 1], Tables(tr[..i]));
      ProvenanceGrows(tr[i], Tables(tr[..i]), tr[i].db);
    }
  }

  /** An answer given by a call is what the table at some moment of the run so far says. */
  lemma AnswersWereTrue(tr: seq<State>, acts: seq<Action>, t: nat, b: nat)
    requires Run(tr, acts) && b < |tr| && t in tr[b].threads
    requires tr[b].threads[t].pc.Done? && tr[b].threads[t].pc.outcome.Found?
    ensures exists k :: 0 <= k <= b && tr[b].threads[t].pc.outcome.answer ==
                                         Ask(BuildCache(tr[k].db), tr[b].threads[t].query)
  {
    ProvenanceHolds(tr, acts, b);
    var db :| db in Tables(tr[..b + 1]) &&
              tr[b].threads[t].pc.outcome.answer == Ask(BuildCache(db), tr[b].threads[t].query);
    TablesAreStates(tr[..b + 1], db);
  }

  lemma {:induction false} TablesAreStates(tr: seq<State>, db: Rows)
    requires db in Tables(tr)
    ensures exists k :: 0 <= k < |tr| && tr[k].db == db
  {
    if db == tr[|tr| - 1].db {
    } else {
      TablesAreStates(tr[..|tr| - 1], db);
      var k :| 0 <= k < |tr| - 1 && tr[..|tr| - 1][k].db == db;
      assert tr[k].db == db;
    }
  }

  // ---- Sync numbers ----

  function Rebuilds(acts: seq<Action>): nat {
    if acts == [] then 0
    else Rebuilds(acts[..|acts| - 1]) + (if acts[|acts| - 1].Publish? then 1 else 0)
  }

  /** The sync number counts the rebuilds of the run; nothing else moves it. */
  lemma {:induction false} SyncNumCountsRebuilds(tr: seq<State>, acts: seq<Action>, i: nat)
    requires Run(tr, acts) && i < |tr|
    ensures tr[i].cs.syncNum == Rebuilds(acts[..i])
  {
    if i > 0 {
      SyncNumCountsRebuilds(tr, acts, i - 1);
      LockInvHolds(tr, acts, i - 1);
      assert acts[..i][..i - 1] == acts[..i - 1];
    }
  }

  lemma {:induction false} RebuildsMonotone(acts: seq<Action>, i: nat, j: nat)
    requires i <= j <= |acts|
    ensures Rebuilds(acts[..i]) <= Rebuilds(acts[..j])
  {
    if i < j {
      RebuildsMonotone(acts, i, j - 1);
      assert acts[..j][..j - 1] == acts[..j - 1];
    }
  }

  /** Of all threads holding one sync number, at most one ever rebuilds with it. */
  lemma OneRebuildPerNumber(tr: seq<State>, acts: seq<Action>, i: nat, j: nat)
    requires Run(tr, acts) && i < j < |acts| && acts[i].Publish? && acts[j].Publish?
    ensures tr[i].threads[acts[i].t].pc.snum < tr[j].threads[acts[j].t].pc.snum
  {
    LockInvHolds(tr, acts, i);
    LockInvHolds(tr, acts, j);
    SyncNumCountsRebuilds(tr, acts, i);
    SyncNumCountsRebuilds(tr, acts, j);
    assert acts[..i + 1][..i] == acts[..i];
    RebuildsMonotone(acts, i + 1, j);
  }

  /** And exactly one does, for every number that has been passed: the rebuild that ended it. */
  lemma {:induction false} EachNumberIsRebuilt(tr: seq<State>, acts: seq<Action>, j: nat, n: nat) returns (i: nat)
    requires Run(tr, acts) && j < |tr| && n < tr[j].cs.syncNum
    ensures i < j && acts[i].Publish? && tr[i].threads[acts[i].t].pc.snum == n
    ensures forall k :: 0 <= k < |acts| && acts[k].Publish? && tr[k].threads[acts[k].t].pc.snum == n ==> k == i
  {
    SyncNumCountsRebuilds(tr, acts, j);
    assert j > 0 && acts[..j][..j - 1] == acts[..j - 1];
    SyncNumCountsRebuilds(tr, acts, j - 1);
    if n < tr[j - 1].cs.syncNum {
      i := EachNumberIsRebuilt(tr, acts, j - 1, n);
    } else {
      i := j - 1;
      LockInvHolds(tr, acts, i);
      forall k | 0 <= k < |acts| && acts[k].Publish? && tr[k].threads[acts[k].t].pc.snum == n ensures k == i {
        if k < i {
          OneRebuildPerNumber(tr, acts, k, i);
        } else if i < k {
          OneRebuildPerNumber(tr, acts, i, k);
        }
      }
    }
  }

  // ---- One round would not suffice ----

  function Other(): CompEndpoint { CompEndpoint("x0c0s0b0", "x0c0s0b0", "/redfish/v1", 0) }

  function Late(): CompEndpoint { CompEndpoint("x0c0s1b0", "x0c0s1b0", "/redfish/v1", 0) }

  function Pair(db: Rows, cs: CacheState, writer: Option<nat>, pc1: Pc, pc2: Pc): State {
    State(db, cs, writer, map[1 := Thread(ValueOf(Late().id), pc1), 2 := Thread(ValueOf(Other().id), pc2)])
  }

  /** One more step of a run, to the given state. */
  lemma Extend(tr: seq<State>, acts: seq<Action>, a: Action, s: State)
    returns (tr': seq<State>, acts': seq<Action>)
    requires Run(tr, acts) && Enabled(tr[|acts|], a) && Apply(tr[|acts|], a) == s
    ensures acts' == acts + [a] && tr' == tr + [s] && Run(tr', acts')
    ensures |acts'| == |acts| + 1 == |tr'| - 1 && tr'[|acts'|] == s
  {
    tr', acts' := tr + [s], acts + [a];
  }

  lemma StartRun(s: State)
    requires s.cs == CacheState(EmptyCache, 0) && s.writer.None? && s.threads == map[]
    ensures Run([s], [])
  {
  }

  lemma OtherOnly()
    ensures BuildCache([Other()]) == AddRow(EmptyCache, Other())
    ensures Ask(BuildCache([Other()]), ValueOf(Late().id)) == Missing
    ensures HasId([Other()], Other().id) && HasId([Other(), Late()], Late().id)
    ensures CheckFinds([Other()], Other().id) && CheckFinds([Other(), Late()], Late().id)
    ensures Ask(EmptyCache, ValueOf(Late().id)) == Missing && Ask(EmptyCache, ValueOf(Other().id)) == Missing
  {
    assert [Other()][..0] == [];
    assert Other() in [Other()] && Late() in [Other(), Late()];
    assert |Other().id| == 8 && |Late().id| == 8;
  }

  /** Both threads missed in the cache and are about to check the table. */
  lemma BothMissed() returns (tr: seq<State>, acts: seq<Action>)
    ensures Run(tr, acts) && |acts| == 4
    ensures tr[4] == Pair([Other()], CacheState(EmptyCache, 0), None, Checking(0, 0, 0), Checking(0, 0, 0))
  {
    OtherOnly();
    hide Ask, BuildCache, CheckFinds, Other, Late, Run;
    var db, cs := [Other()], CacheState(EmptyCache, 0);
    var s0 := State(db, cs, None, map[]);
    var q1, q2 := ValueOf(Late().id), ValueOf(Other().id);
    tr, acts := [s0], [];
    assert Run(tr, acts) by { StartRun(s0); }
    tr, acts := Extend(tr, acts, Call(1, q1), s0.(threads := map[1 := Thread(q1, Begin)]));
    tr, acts := Extend(tr, acts, Call(2, q2), Pair(db, cs, None, Begin, Begin));
    tr, acts := Extend(tr, acts, Read(1), Pair(db, cs, None, Checking(0, 0, 0), Begin));
    tr, acts := Extend(tr, acts, Read(2), Pair(db, cs, None, Checking(0, 0, 0), Checking(0, 0, 0)));
  }

  /** Thread 2 is about to store a table it read before the row of thread 1 appeared, and
      thread 1 is about to check the table. */
  lemma StaleRebuildPending() returns (tr: seq<State>, acts: seq<Action>)
    ensures Run(tr, acts) && |acts| == 8
    ensures tr[8] == Pair([Other(), Late()], CacheState(EmptyCache, 0), Some(2),
                          Checking(0, 0, 0), Building(0, 0, [Other()]))
  {
    OtherOnly();
    tr, acts := BothMissed();
    assert |tr| == 5;
    hide Ask, BuildCache, CheckFinds, Other, Late, Run;
    var db, cs := [Other()], CacheState(EmptyCache, 0);
    tr, acts := Extend(tr, acts, Check(2, Replied), Pair(db, cs, None, Checking(0, 0, 0), Syncing(0, 0, 0)));
    tr, acts := Extend(tr, acts, Acquire(2), Pair(db, cs, Some(2), Checking(0, 0, 0), Holding(0, 0, 0)));
    tr, acts := Extend(tr, acts, Fetch(2, true), Pair(db, cs, Some(2), Checking(0, 0, 0), Building(0, 0, db)));
    tr, acts := Extend(tr, acts, ChangeDb([Other(), Late()]),
                       Pair([Other(), Late()], cs, Some(2), Checking(0, 0, 0), Building(0, 0, db)));
  }

  /** A run in which the first round of thread 1 does not help, although its check found the
      row and the row stays: thread 2 read the table for its rebuild before the row appeared,
      and stored it after the check. Only the second round is left. */
  lemma OneRoundIsNotEnough() returns (tr: seq<State>, acts: seq<Action>, c: nat)
    ensures Run(tr, acts) && FirstCheckFinds(tr, acts, 1, c)
    ensures tr[c].threads[1].query == ValueOf(Late().id)
    ensures forall k :: c <= k < |tr| ==> HasId(tr[k].db, Late().id)
    ensures 1 in tr[|acts|].threads && tr[|acts|].threads[1].pc == Checking(1, 1, 0)
  {
    OtherOnly();
    tr, acts := StaleRebuildPending();
    assert |tr| == 9;
    hide Ask, BuildCache, CheckFinds, Other, Late, Run;
    var db, cs := [Other(), Late()], CacheState(EmptyCache, 0);
    var cs' := CacheState(BuildCache([Other()]), 1);
    c := 8;
    tr, acts := Extend(tr, acts, Check(1, Replied),
                       Pair(db, cs, Some(2), Syncing(0, 0, 0), Building(0, 0, [Other()])));
    tr, acts := Extend(tr, acts, Publish(2), Pair(db, cs', None, Syncing(0, 0, 0), Rereading(0, true)));
    tr, acts := Extend(tr, acts, Acquire(1), Pair(db, cs', None, Rereading(0, false), Rereading(0, true)));
    tr, acts := Extend(tr, acts, Read(1), Pair(db, cs', None, Checking(1, 1, 0), Rereading(0, true)));
  }
}
