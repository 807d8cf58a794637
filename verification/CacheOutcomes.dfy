/** How lookups through the shared cache end: with which outcome, after how many steps, and with
    what answer. */
module CacheOutcomes {
  import opened Wrappers
  import opened Strings
  import opened CompEndpointCache
  import opened CacheProtocol

  // ---- How calls end ----

  /** The thread that takes a step, if any. */
  predicate IsOwn(a: Action, t: nat) {
    !a.ChangeDb? && a.t == t
  }

  /** How many checks of a thread in a row have just failed with a database error. */
  function CheckErrors(acts: seq<Action>, t: nat): nat {
    if acts == [] then 0
    else
      var front, last := acts[..|acts| - 1], acts[|acts| - 1];
      if last == Check(t, DbError) then CheckErrors(front, t) + 1
      else if IsOwn(last, t) then 0
      else CheckErrors(front, t)
  }

  /** How many rebuilds of a thread in a row have just failed to read the table. */
  function FetchErrors(acts: seq<Action>, t: nat): nat {
    if acts == [] then 0
    else
      var front, last := acts[..|acts| - 1], acts[|acts| - 1];
      if last == Fetch(t, false) then FetchErrors(front, t) + 1
      else if IsOwn(last, t) && !last.Acquire? then 0
      else FetchErrors(front, t)
  }

  /** The last step of a thread, if it has taken any. */
  function LastOwn(acts: seq<Action>, t: nat): (r: Option<nat>)
    ensures r.Some? ==> r.value < |acts| && IsOwn(acts[r.value], t)
    ensures r.Some? ==> forall k :: r.value < k < |acts| ==> !IsOwn(acts[k], t)
    ensures r.None? ==> forall k :: 0 <= k < |acts| ==> !IsOwn(acts[k], t)
  {
    if acts == [] then None
    else
      var n := |acts| - 1;
      if IsOwn(acts[n], t) then Some(n) else LastOwn(acts[..n], t)
  }

  /** How a call has ended, told from the replies it got and the table and cache at its last step. */
  ghost predicate EndsRight(tr: seq<State>, acts: seq<Action>, i: nat, t: nat)
    requires Run(tr, acts) && i < |tr| && t in tr[i].threads && tr[i].threads[t].pc.Done?
  {
    var last := LastOwn(acts[..i], t);
    var q, failing := tr[i].threads[t].query, CheckErrors(acts[..i], t) >= 3 || FetchErrors(acts[..i], t) >= 3;
    && last.Some?
    && (tr[i].threads[t].pc.outcome.Failed? <==> acts[last.value] == Check(t, DriverError) || failing)
    && match tr[i].threads[t].pc.outcome
       case Failed => true
       case NotInDb => acts[last.value] == Check(t, Replied) && !CheckFinds(tr[last.value].db, q.id)
       case NotCached => acts[last.value] == Read(t) && Ask(tr[last.value].cs.cache, q) == Missing
       case Found(ans) => acts[last.value] == Read(t) && Ask(tr[last.value].cs.cache, q) == ans != Missing
  }

  /** The retries counted by a call are the errors it has got in a row. */
  ghost predicate RetriesInv(s: State, acts: seq<Action>, t: nat)
    requires t in s.threads
  {
    var checks, fetches := CheckErrors(acts, t), FetchErrors(acts, t);
    match s.threads[t].pc
    case Checking(_, _, tries) => tries == checks < 3 && fetches == 0
    case Syncing(_, _, tries) => tries == fetches < 3 && checks == 0
    case Holding(_, _, tries) => tries == fetches < 3 && checks == 0
    case Rereading(_, _) => fetches < 3 && checks == 0
    case Done(_) => true
    case _ => checks == 0 && fetches == 0
  }

  lemma RetriesStep(s: State, acts: seq<Action>, a: Action, t: nat)
    requires Enabled(s, a) && t in Apply(s, a).threads && (t in s.threads ==> RetriesInv(s, acts, t))
    ensures RetriesInv(Apply(s, a), acts + [a], t)
  {
    hide Ask, CheckFinds;
    assert (acts + [a])[..|acts|] == acts;
    if !IsOwn(a, t) {
      assert Apply(s, a).threads[t] == s.threads[t];
    }
  }

  lemma {:induction false} RetriesHold(tr: seq<State>, acts: seq<Action>, i: nat, t: nat)
    requires Run(tr, acts) && i < |tr| && t in tr[i].threads
    ensures RetriesInv(tr[i], acts[..i], t)
  {
    if i > 0 {
      assert acts[..i] == acts[..i - 1] + [acts[i - 1]];
      assert tr[i - 1 + 1] == Apply(tr[i - 1], acts[i - 1]);
      if t in tr[i - 1].threads {
        RetriesHold(tr, acts, i - 1, t);
      }
      RetriesStep(tr[i - 1], acts[..i - 1], acts[i - 1], t);
    }
  }

  /** The step that ends a call. */
  lemma EndingStep(s: State, a: Action, t: nat, acts: seq<Action>)
    requires Enabled(s, a) && IsOwn(a, t) && t in Apply(s, a).threads && Apply(s, a).threads[t].pc.Done?
    requires t in s.threads ==> RetriesInv(s, acts, t)
    ensures t in s.threads && Apply(s, a).threads[t].query == s.threads[t].query
    ensures var q, failing := s.threads[t].query, CheckErrors(acts + [a], t) >= 3 || FetchErrors(acts + [a], t) >= 3;
            && (Apply(s, a).threads[t].pc.outcome.Failed? <==> a == Check(t, DriverError) || failing)
            && match Apply(s, a).threads[t].pc.outcome
            case Failed => true
            case NotInDb => a == Check(t, Replied) && !CheckFinds(s.db, q.id)
            case NotCached => a == Read(t) && Ask(s.cs.cache, q) == Missing
            case Found(ans) => a == Read(t) && Ask(s.cs.cache, q) == ans != Missing
  {
    hide Ask, CheckFinds;
    assert (acts + [a])[..|acts|] == acts;
  }

  lemma OthersKeepThreads(s: State, a: Action, t: nat, acts: seq<Action>)
    requires Enabled(s, a) && !IsOwn(a, t)
    ensures t in Apply(s, a).threads <==> t in s.threads
    ensures t in s.threads ==> Apply(s, a).threads[t] == s.threads[t]
    ensures CheckErrors(acts + [a], t) == CheckErrors(acts, t) && FetchErrors(acts + [a], t) == FetchErrors(acts, t)
    ensures LastOwn(acts + [a], t) == LastOwn(acts, t)
  {
    hide Ask, CheckFinds;
    assert (acts + [a])[..|acts|] == acts;
  }

  /** Every call ends as its replies and the tables and caches it met demand: with an error exactly
      for a driver error or three errors in a row, as not in the database only after a check that
      found nothing, and otherwise by a cached read. */
  lemma {:induction false} CallsEndRight(tr: seq<State>, acts: seq<Action>, i: nat, t: nat)
    requires Run(tr, acts) && i < |tr| && t in tr[i].threads && tr[i].threads[t].pc.Done?
    ensures EndsRight(tr, acts, i, t)
  {
    hide Ask, CheckFinds, Apply, Enabled, CheckErrors, FetchErrors, RetriesInv;
    var s, a, before := tr[i - 1], acts[i - 1], acts[..i - 1];
    assert acts[..i] == before + [a] && tr[i - 1 + 1] == Apply(s, a);
    if IsOwn(a, t) {
      if t in s.threads {
        RetriesHold(tr, acts, i - 1, t);
      }
      EndingStep(s, a, t, before);
      LastIsOwn(before, a, t);
    } else {
      OthersKeepThreads(s, a, t, before);
      CallsEndRight(tr, acts, i - 1, t);
    }
  }

  lemma LastIsOwn(acts: seq<Action>, a: Action, t: nat)
    requires IsOwn(a, t)
    ensures LastOwn(acts + [a], t) == Some(|acts|)
  {
  }

  // ---- That calls end ----

  /** An upper bound on the steps a thread has left in its call. */
  function StepsLeft(pc: Pc): int {
    match pc
    case Begin => 23
    case Checking(round, _, tries) => 11 * (1 - round) + 11 - tries
    case Syncing(round, _, tries) => 11 * (1 - round) + 8 - 2 * tries
    case Holding(round, _, tries) => 11 * (1 - round) + 7 - 2 * tries
    case Building(round, _, _) => 11 * (1 - round) + 2
    case Rereading(round, _) => 11 * (1 - round) + 1
    case Done(_) => 0
  }

  predicate RoundsOk(pc: Pc) {
    match pc
    case Checking(round, _, tries) => round <= 1 && tries < 3
    case Syncing(round, _, tries) => round <= 1 && tries < 3
    case Holding(round, _, tries) => round <= 1 && tries < 3
    case Building(round, _, _) => round <= 1
    case Rereading(round, _) => round <= 1
    case _ => true
  }

  /** The own steps of a thread since its last call. */
  function OwnSteps(acts: seq<Action>, t: nat): nat {
    if acts == [] then 0
    else
      var front, last := acts[..|acts| - 1], acts[|acts| - 1];
      if !IsOwn(last, t) then OwnSteps(front, t) else if last.Call? then 0 else OwnSteps(front, t) + 1
  }

  lemma OwnStepsSnoc(acts: seq<Action>, a: Action, t: nat)
    ensures OwnSteps(acts + [a], t) ==
            if !IsOwn(a, t) then OwnSteps(acts, t) else if a.Call? then 0 else OwnSteps(acts, t) + 1
  {
    assert (acts + [a])[..|acts|] == acts;
  }

  lemma OwnStepUsesOne(s: State, a: Action, t: nat)
    requires Enabled(s, a) && IsOwn(a, t) && !a.Call? && RoundsOk(s.threads[t].pc)
    ensures var pc := Apply(s, a).threads[t].pc; RoundsOk(pc) && StepsLeft(pc) < StepsLeft(s.threads[t].pc)
  {
    hide Ask, CheckFinds;
  }

  lemma OthersKeepPc(s: State, a: Action, t: nat)
    requires Enabled(s, a) && t in Apply(s, a).threads && !IsOwn(a, t)
    ensures t in s.threads && Apply(s, a).threads[t] == s.threads[t]
  {
    hide Ask, CheckFinds;
  }

  lemma StepsStep(s: State, a: Action, t: nat, acts: seq<Action>)
    requires Enabled(s, a) && t in Apply(s, a).threads
    requires t in s.threads ==> RoundsOk(s.threads[t].pc) && StepsLeft(s.threads[t].pc) + OwnSteps(acts, t) <= 23
    ensures var pc := Apply(s, a).threads[t].pc; RoundsOk(pc) && StepsLeft(pc) + OwnSteps(acts + [a], t) <= 23
  {
    OwnStepsSnoc(acts, a, t);
    hide OwnSteps, Ask, CheckFinds;
    if !IsOwn(a, t) {
      hide Apply, Enabled;
      OthersKeepPc(s, a, t);
    } else if !a.Call? {
      OwnStepUsesOne(s, a, t);
      hide Apply;
    }
  }

  lemma {:induction false} StepsHold(tr: seq<State>, acts: seq<Action>, i: nat, t: nat)
    requires Run(tr, acts) && i < |tr| && t in tr[i].threads
    ensures var pc := tr[i].threads[t].pc; RoundsOk(pc) && StepsLeft(pc) + OwnSteps(acts[..i], t) <= 23
  {
    if i > 0 {
      assert acts[..i] == acts[..i - 1] + [acts[i - 1]];
      assert tr[i - 1 + 1] == Apply(tr[i - 1], acts[i - 1]);
      if t in tr[i - 1].threads {
        StepsHold(tr, acts, i - 1, t);
      }
      StepsStep(tr[i - 1], acts[i - 1], t, acts[..i - 1]);
    }
  }

  /** No call takes more than 23 steps of its own: two rounds of checks, syncs and cached reads. */
  lemma CallsEnd(tr: seq<State>, acts: seq<Action>, i: nat, t: nat)
    requires Run(tr, acts) && i < |tr| && t in tr[i].threads
    ensures OwnSteps(acts[..i], t) <= 23
    ensures OwnSteps(acts[..i], t) == 23 ==> tr[i].threads[t].pc.Done?
  {
    StepsHold(tr, acts, i, t);
  }

  // ---- What is checked ----

  predicate PduName(x: string, cabinet: string, n: char) {
    && x == "x" + cabinet + "m" + [n]
    && 1 <= |cabinet| <= 4 && (forall i :: 0 <= i < |cabinet| ==> cabinet[i] in "0123456789") && n in "0123"
  }

  lemma Digits(c: char)
    ensures c in "0123456789" <==> IsDigit(c)
    ensures c in "0123" <==> '0' <= c <= '3'
  {
  }

  lemma PduNameIsOne(x: string, cabinet: string, n: char)
    ensures PduName(x, cabinet, n) ==> IsCabinetPduController(x)
  {
    hide IsDigit;
    if PduName(x, cabinet, n) {
      Digits(n);
      forall i | 1 <= i < |x| - 2 ensures IsDigit(x[i]) {
        assert x[i] == cabinet[i - 1];
        Digits(cabinet[i - 1]);
      }
      assert x[|x| - 2] == 'm' && x[|x| - 1] == n;
    }
  }

  /** The names of cabinet PDU controllers: x, one to four digits, m, and a digit up to 3. */
  lemma PduNames(x: string)
    ensures IsCabinetPduController(x) <==>
            exists cabinet: string, n: char :: PduName(x, cabinet, n)
  {
    hide IsDigit;
    if IsCabinetPduController(x) {
      var cabinet, n := x[1..|x| - 2], x[|x| - 1];
      assert x == "x" + cabinet + "m" + [n];
      Digits(n);
      forall i | 0 <= i < |cabinet| ensures cabinet[i] in "0123456789" {
        Digits(x[i + 1]);
      }
      assert PduName(x, cabinet, n);
    }
    forall cabinet: string, n: char ensures PduName(x, cabinet, n) ==> IsCabinetPduController(x) {
      PduNameIsOne(x, cabinet, n);
    }
  }

  /** The check for the endpoint of a cabinet PDU controller asks for its children, any other for a
      row of its own. */
  lemma ChecksMean(db: Rows, id: string)
    ensures IsCabinetPduController(id) ==> (CheckFinds(db, id) <==> ChildIds(db, id) != [])
    ensures !IsCabinetPduController(id) ==> (CheckFinds(db, id) <==> exists r :: r in db && r.id == id)
  {
    ChildIdsAreRowIds(db, id);
    if ChildIds(db, id) != [] {
      assert ChildIds(db, id)[0] in ChildIds(db, id);
    }
    if r :| r in db && r.rfEndpointId == id {
      assert r.id in ChildIds(db, id);
    }
  }

  /** Two URIs under two endpoints are looked up under one key exactly if both agree but for the case
      of letters. */
  lemma UriKeysMean(id: string, uri: string, id': string, uri': string)
    requires ':' !in id && ':' !in id'
    ensures UriKey(id, uri) == UriKey(id', uri') <==> ToLower(id) == ToLower(id') && ToLower(uri) == ToLower(uri')
  {
    ToLowerAppend(id + ":", uri);
    ToLowerAppend(id, ":");
    ToLowerAppend(id' + ":", uri');
    ToLowerAppend(id', ":");
    assert UriKey(id, uri) == ToLower(id) + [':'] + ToLower(uri);
    assert UriKey(id', uri') == ToLower(id') + [':'] + ToLower(uri');
    if UriKey(id, uri) == UriKey(id', uri') {
      FirstSepUnique(ToLower(id), ToLower(id'), ToLower(uri), ToLower(uri'), ':');
    }
  }

  // ---- What a sync returns ----

  /** The steps of a sync are the numbered map's: what it says about having rebuilt is what the
      thread goes on with, and after a failure it has rebuilt nothing. */
  lemma SyncsAgree(s: State, t: nat, fetched: Option<Rows>)
    requires LockInv(s)
    ensures Enabled(s, Acquire(t)) && s.cs.syncNum != s.threads[t].pc.snum ==>
              var s' := Apply(s, Acquire(t));
              && s'.threads[t].pc.Rereading?
              && TrySyncResult(s.cs, s.threads[t].pc.snum, fetched) == (s'.cs, s'.threads[t].pc.didUpdate, false)
    ensures Enabled(s, Fetch(t, false)) ==>
              TrySyncResult(s.cs, s.threads[t].pc.snum, None) == (Apply(s, Fetch(t, false)).cs, false, true)
    ensures Enabled(s, Publish(t)) ==>
              var s', pc := Apply(s, Publish(t)), s.threads[t].pc;
              && s'.threads[t].pc.Rereading?
              && TrySyncResult(s.cs, pc.snum, Some(pc.snapshot)) == (s'.cs, s'.threads[t].pc.didUpdate, false)
  {
    hide Ask, CheckFinds, BuildCache;
  }

  // ---- What the answers say ----

  /** The answer to a lookup, read off a table. */
  ghost predicate IsAnswer(db: Rows, q: Query, ans: Answer) {
    match q
    case ValueOf(id) => ans.Row? && ans.row in db && ans.row.id == id
    case UriOf(id, uri) => IdAtUri(db, id, uri).Some? && ans == Key(IdAtUri(db, id, uri).value)
    case ChildrenOf(id) => ChildIds(db, id) != [] && ans == Key(Join(ChildIds(db, id), ','))
  }

  /** Tables and lookups as the service has them. */
  ghost predicate Sane(db: Rows, q: Query) {
    && UniqueIds(db) && WellFormed(db) && ':' !in q.id
    && (q.UriOf? ==> q.uri != "" && q.uri[0] == '/')
  }

  lemma AskedOfTable(db: Rows, q: Query, ans: Answer)
    requires Sane(db, q)
    ensures Ask(BuildCache(db), q) == ans != Missing <==> IsAnswer(db, q, ans)
  {
    match q
    case ValueOf(id) =>
      ValuesAgree(db, id);
      if HasId(db, id) {
        var r :| r in db && r.id == id;
      }
    case UriOf(id, uri) =>
      UrisAgree(db, id, uri);
      IdAtUriIsRowId(db, id, uri);
      if IdAtUri(db, id, uri).Some? {
        var r :| r in db && r.id == IdAtUri(db, id, uri).value;
        assert WellFormedRow(r);
      }
    case ChildrenOf(id) =>
      ChildrenAgree(db, id);
      if ChildIds(db, id) != [] {
        JoinedIsNotEmpty(db, id);
      }
  }

  lemma JoinedIsNotEmpty(db: Rows, id: string)
    requires WellFormed(db) && ChildIds(db, id) != []
    ensures Join(ChildIds(db, id), ',') != ""
  {
    var ids := ChildIds(db, id);
    assert ids[0] in ids;
    ChildIdsAreRowIds(db, id);
  }

  /** Every answer is the row, the id at the URI, or the list of children that the table held at
      some moment of the run. */
  lemma AnswersAreOfTables(tr: seq<State>, acts: seq<Action>, t: nat, b: nat)
    requires Run(tr, acts) && b < |tr| && t in tr[b].threads
    requires tr[b].threads[t].pc.Done? && tr[b].threads[t].pc.outcome.Found?
    requires forall k :: 0 <= k <= b ==> Sane(tr[k].db, tr[b].threads[t].query)
    ensures exists k :: 0 <= k <= b && IsAnswer(tr[k].db, tr[b].threads[t].query, tr[b].threads[t].pc.outcome.answer)
  {
    var q, ans := tr[b].threads[t].query, tr[b].threads[t].pc.outcome.answer;
    hide Ask, BuildCache, Sane, IsAnswer, Apply, Enabled;
    AnswersWereTrue(tr, acts, t, b);
    CallsEndRight(tr, acts, b, t);
    var k :| 0 <= k <= b && ans == Ask(BuildCache(tr[k].db), q);
    AskedOfTable(tr[k].db, q, ans);
  }
}
