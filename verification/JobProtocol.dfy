/** Polling jobs of several service instances: each is a row that its owner keeps alive, and
    expired rows are deleted and made anew by whichever instance's delete succeeds. */
module JobProtocol {
  import opened Wrappers

  type JobId = nat

  /** A polling job of a component. The component is the primary key of the poll table, whose
      rows go with their jobs. */
  datatype Job = Job(comp: string, complete: bool, stamp: nat, lifetime: nat)

  /** `polls` is the local list of polling jobs by component; `read` are the expired jobs the
      sync thread has read and not yet dealt with; `remaking` is the component of a job it has
      deleted and is about to make anew. */
  datatype Instance = Instance(polls: map<string, JobId>, read: map<JobId, Job>, remaking: Option<string>)

  datatype State = State(
    now: nat,
    jobs: map<JobId, Job>,
    used: set<JobId>,                 // ids are never given twice
    insts: map<nat, Instance>,
    adoptions: seq<(nat, JobId)>)     // which instance adopted which job, in order

  const LIFETIME := 20

  datatype Action =
    | Tick(seconds: nat)
    | Join(i: nat)
    | Leave(i: nat)
    | StartPoll(i: nat, comp: string, id: JobId)
    | Cancel(i: nat, comp: string)
    | KeepAlive(i: nat, comp: string)
    | Finish(i: nat, comp: string)
    | ReadExpired(i: nat)
    | TryDelete(i: nat, id: JobId)
    | Remake(i: nat, id: JobId)

  predicate HasPoll(jobs: map<JobId, Job>, comp: string) {
    exists id :: id in jobs && jobs[id].comp == comp
  }

  predicate Expired(j: Job, now: nat) {
    now - j.stamp >= j.lifetime
  }

  predicate Enabled(s: State, a: Action) {
    match a
    case Tick(_) => true
    case Join(i) => i !in s.insts
    case Leave(i) => i in s.insts
    case StartPoll(i, _, id) => i in s.insts && id !in s.used
    case Cancel(i, comp) => i in s.insts
    case KeepAlive(i, comp) => i in s.insts && comp in s.insts[i].polls
    case Finish(i, comp) => i in s.insts && comp in s.insts[i].polls
    case ReadExpired(i) => i in s.insts && s.insts[i].read == map[] && s.insts[i].remaking.None?
    case TryDelete(i, id) => i in s.insts && id in s.insts[i].read && s.insts[i].remaking.None?
    case Remake(i, id) => i in s.insts && s.insts[i].remaking.Some? && id !in s.used
  }

  function SetInst(s: State, i: nat, inst: Instance): State {
    s.(insts := s.insts[i := inst])
  }

  /** `doStateRFPoll`: the insert fails if the component has a poll already, of any instance. */
  function DoStateRFPoll(s: State, i: nat, comp: string, id: JobId): State
    requires i in s.insts
  {
    if HasPoll(s.jobs, comp) then s.(used := s.used + {id})
    else
      SetInst(s, i, s.insts[i].(polls := s.insts[i].polls[comp := id]))
        .(jobs := s.jobs[id := Job(comp, false, s.now, LIFETIME)], used := s.used + {id})
  }

  function Touch(s: State, id: JobId, complete: bool): State {
    if id in s.jobs then s.(jobs := s.jobs[id := s.jobs[id].(stamp := s.now, complete := complete || s.jobs[id].complete)])
    else s
  }

  function Apply(s: State, a: Action): State
    requires Enabled(s, a)
  {
    match a
    case Tick(d) => s.(now := s.now + d)
    case Join(i) => SetInst(s, i, Instance(map[], map[], None))
    case Leave(i) => s.(insts := s.insts - {i})
    case StartPoll(i, comp, id) => DoStateRFPoll(s, i, comp, id)
    case Cancel(i, comp) =>
      var inst := s.insts[i];
      if comp in inst.polls then
        SetInst(s, i, inst.(polls := inst.polls - {comp})).(jobs := s.jobs - {inst.polls[comp]})
      else s
    case KeepAlive(i, comp) => Touch(s, s.insts[i].polls[comp], false)
    case Finish(i, comp) => Touch(s, s.insts[i].polls[comp], true)
    case ReadExpired(i) =>
      SetInst(s, i, s.insts[i].(read := map id | id in s.jobs && Expired(s.jobs[id], s.now) :: s.jobs[id]))
    case TryDelete(i, id) =>
      var inst := s.insts[i];
      var left := inst.(read := inst.read - {id});
      var after := s.(jobs := s.jobs - {id});
      if !inst.read[id].complete && id in s.jobs then
        SetInst(after, i, left.(remaking := Some(inst.read[id].comp))).(adoptions := s.adoptions + [(i, id)])
      else SetInst(after, i, left)
    case Remake(i, id) =>
      var comp := s.insts[i].remaking.value;
      DoStateRFPoll(SetInst(s, i, s.insts[i].(remaking := None)), i, comp, id)
  }

  ghost predicate Run(tr: seq<State>, acts: seq<Action>) {
    && |tr| == |acts| + 1
    && tr[0].jobs == map[] && tr[0].insts == map[] && tr[0].adoptions == []
    && forall i :: 0 <= i < |acts| ==> Enabled(tr[i], acts[i]) && tr[i + 1] == Apply(tr[i], acts[i])
  }

  // ---- Invariants ----

  ghost predicate Inv(s: State) {
    && (forall id :: id in s.jobs ==> id in s.used)
    && (forall i, id :: i in s.insts && id in s.insts[i].read ==> id in s.used)
    && (forall n :: 0 <= n < |s.adoptions| ==> s.adoptions[n].1 in s.used && s.adoptions[n].1 !in s.jobs)
    && (forall n, n' :: 0 <= n < n' < |s.adoptions| ==> s.adoptions[n].1 != s.adoptions[n'].1)
    && (forall id, id' :: id in s.jobs && id' in s.jobs && s.jobs[id].comp == s.jobs[id'].comp ==> id == id')
  }

  lemma PollKeepsInv(s: State, i: nat, comp: string, id: JobId)
    requires Inv(s) && i in s.insts && id !in s.used
    ensures Inv(DoStateRFPoll(s, i, comp, id))
  {
  }

  lemma TryDeleteKeepsInv(s: State, a: Action)
    requires Inv(s) && Enabled(s, a) && a.TryDelete?
    ensures Inv(Apply(s, a))
  {
  }

  /** Steps that drop jobs or change their times and statuses, and adopt nothing. */
  lemma FewerJobsKeepInv(s: State, s': State)
    requires Inv(s) && s'.adoptions == s.adoptions && s'.used == s.used
    requires forall id :: id in s'.jobs ==> id in s.jobs && s'.jobs[id].comp == s.jobs[id].comp
    requires forall i, id :: i in s'.insts && id in s'.insts[i].read ==> id in s.used
    ensures Inv(s')
  {
  }

  lemma InvStep(s: State, a: Action)
    requires Inv(s) && Enabled(s, a)
    ensures Inv(Apply(s, a))
  {
    if a.StartPoll? {
      PollKeepsInv(s, a.i, a.comp, a.id);
    } else if a.Remake? {
      var mid := SetInst(s, a.i, s.insts[a.i].(remaking := None));
      FewerJobsKeepInv(s, mid);
      PollKeepsInv(mid, a.i, s.insts[a.i].remaking.value, a.id);
    } else if a.TryDelete? {
      TryDeleteKeepsInv(s, a);
    } else {
      FewerJobsKeepInv(s, Apply(s, a));
    }
  }

  lemma {:induction false} InvHolds(tr: seq<State>, acts: seq<Action>, n: nat)
    requires Run(tr, acts) && n < |tr|
    ensures Inv(tr[n])
  {
    if n > 0 {
      InvHolds(tr, acts, n - 1);
      InvStep(tr[n - 1], acts[n - 1]);
    }
  }

  /** However many instances have read the same expired job, and in whatever order they act on
      it, at most one of them adopts it, and only once. */
  lemma AdoptedAtMostOnce(tr: seq<State>, acts: seq<Action>, n: nat, a: nat, b: nat)
    requires Run(tr, acts) && n < |tr| && a < |tr[n].adoptions| && b < |tr[n].adoptions|
    requires tr[n].adoptions[a].1 == tr[n].adoptions[b].1
    ensures a == b
  {
    InvHolds(tr, acts, n);
  }

  /** There is never more than one polling job for a component, in all instances together. */
  lemma OneJobPerComponent(tr: seq<State>, acts: seq<Action>, n: nat, id: JobId, id': JobId)
    requires Run(tr, acts) && n < |tr| && id in tr[n].jobs && id' in tr[n].jobs
    requires tr[n].jobs[id].comp == tr[n].jobs[id'].comp
    ensures id == id'
  {
    InvHolds(tr, acts, n);
  }

  // ---- Adoption does not multiply jobs ----

  ghost function Remaking(s: State): set<nat> {
    set i | i in s.insts && s.insts[i].remaking.Some?
  }

  /** Jobs there are and jobs about to be made anew. */
  ghost function Weight(s: State): nat {
    |s.jobs| + |Remaking(s)|
  }

  lemma AddKey(jobs: map<JobId, Job>, id: JobId, j: Job)
    requires id !in jobs
    ensures |jobs[id := j]| == |jobs| + 1
  {
    assert jobs[id := j].Keys == jobs.Keys + {id};
  }

  lemma DropKeys(jobs: map<JobId, Job>, jobs': map<JobId, Job>)
    requires jobs'.Keys <= jobs.Keys
    ensures |jobs'| <= |jobs|
    ensures forall id :: id in jobs && id !in jobs' ==> |jobs'| < |jobs|
  {
    SubsetSize(jobs'.Keys, jobs.Keys);
    if id :| id in jobs && id !in jobs' {
      SubsetSize(jobs'.Keys, jobs.Keys - {id});
    }
  }

  lemma SubsetSize<T>(a: set<T>, b: set<T>)
    requires a <= b
    ensures |a| <= |b|
  {
    assert a + (b - a) == b;
  }

  lemma PollWeight(s: State, i: nat, comp: string, id: JobId)
    requires Inv(s) && i in s.insts && id !in s.used
    ensures Weight(DoStateRFPoll(s, i, comp, id)) <= Weight(s) + 1
    ensures Remaking(DoStateRFPoll(s, i, comp, id)) == Remaking(s)
  {
    if !HasPoll(s.jobs, comp) {
      AddKey(s.jobs, id, Job(comp, false, s.now, LIFETIME));
    }
    assert Remaking(DoStateRFPoll(s, i, comp, id)) == Remaking(s);
  }

  lemma RemakeWeight(s: State, i: nat, id: JobId)
    requires Inv(s) && Enabled(s, Remake(i, id))
    ensures Weight(Apply(s, Remake(i, id))) <= Weight(s)
  {
    var mid := SetInst(s, i, s.insts[i].(remaking := None));
    assert Remaking(mid) == Remaking(s) - {i};
    FewerJobsKeepInv(s, mid);
    PollWeight(mid, i, s.insts[i].remaking.value, id);
  }

  lemma TryDeleteWeight(s: State, i: nat, id: JobId)
    requires Enabled(s, TryDelete(i, id))
    ensures Weight(Apply(s, TryDelete(i, id))) <= Weight(s)
  {
    var s' := Apply(s, TryDelete(i, id));
    DropKeys(s.jobs, s'.jobs);
    assert Remaking(s') == if !s.insts[i].read[id].complete && id in s.jobs then Remaking(s) + {i} else Remaking(s);
  }

  lemma OtherWeight(s: State, s': State)
    requires s'.jobs.Keys <= s.jobs.Keys && Remaking(s') <= Remaking(s)
    ensures Weight(s') <= Weight(s)
  {
    DropKeys(s.jobs, s'.jobs);
    SubsetSize(Remaking(s'), Remaking(s));
  }

  /** No step of an adoption, and no other step than a new poll, adds a job. */
  lemma WeightStep(s: State, a: Action)
    requires Inv(s) && Enabled(s, a)
    ensures Weight(Apply(s, a)) <= Weight(s) + if a.StartPoll? then 1 else 0
  {
    if a.StartPoll? {
      PollWeight(s, a.i, a.comp, a.id);
    } else if a.Remake? {
      RemakeWeight(s, a.i, a.id);
    } else if a.TryDelete? {
      TryDeleteWeight(s, a.i, a.id);
    } else {
      OtherWeight(s, Apply(s, a));
    }
  }

  function Polls(acts: seq<Action>): nat {
    if acts == [] then 0
    else Polls(acts[..|acts| - 1]) + if acts[|acts| - 1].StartPoll? then 1 else 0
  }

  /** The jobs of a run, together with those being made anew, never outnumber the polls that were
      started; adoption only moves them. */
  lemma {:induction false} JobsAreBounded(tr: seq<State>, acts: seq<Action>, n: nat)
    requires Run(tr, acts) && n < |tr|
    ensures |tr[n].jobs| + |Remaking(tr[n])| <= Polls(acts[..n])
  {
    if n > 0 {
      JobsAreBounded(tr, acts, n - 1);
      InvHolds(tr, acts, n - 1);
      WeightStep(tr[n - 1], acts[n - 1]);
      assert acts[..n][..n - 1] == acts[..n - 1];
    } else {
      assert Remaking(tr[0]) == {};
    }
  }
}
