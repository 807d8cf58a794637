/** Which polling jobs are read as expired, which of them are adopted, and what becomes of them. */
module JobRules {
  import opened Wrappers
  import opened JobProtocol

  /** The step refreshes the job, as a sign of life or because its poll has finished. */
  predicate Touches(s: State, a: Action, id: JobId)
    requires Enabled(s, a)
  {
    (a.KeepAlive? || a.Finish?) && s.insts[a.i].polls[a.comp] == id
  }

  /** Facts about the jobs of a state that no step breaks. */
  ghost predicate JobsOk(s: State) {
    forall id :: id in s.jobs ==> s.jobs[id].stamp <= s.now && s.jobs[id].lifetime == 20
  }

  lemma JobsOkStep(s: State, a: Action)
    requires JobsOk(s) && Enabled(s, a)
    ensures JobsOk(Apply(s, a)) && s.now <= Apply(s, a).now
  {
  }

  lemma {:induction false} JobsOkHolds(tr: seq<State>, acts: seq<Action>, n: nat)
    requires Run(tr, acts) && n < |tr|
    ensures JobsOk(tr[n])
  {
    if n > 0 {
      JobsOkHolds(tr, acts, n - 1);
      JobsOkStep(tr[n - 1], acts[n - 1]);
    }
  }

  lemma {:induction false} TimePasses(tr: seq<State>, acts: seq<Action>, a: nat, b: nat)
    requires Run(tr, acts) && a <= b < |tr|
    ensures tr[a].now <= tr[b].now
  {
    if a < b {
      TimePasses(tr, acts, a, b - 1);
      JobsOkHolds(tr, acts, b - 1);
      JobsOkStep(tr[b - 1], acts[b - 1]);
    }
  }

  /** What a step does to a job: its component stays, its time is renewed exactly if the step
      touches it, and only the end of its poll completes it. A job that is gone does not come back. */
  lemma JobStep(s: State, a: Action, id: JobId)
    requires Inv(s) && Enabled(s, a) && id in s.used
    ensures var s' := Apply(s, a);
            && id in s'.used && (id in s'.jobs ==> id in s.jobs)
            && (id in s'.jobs ==>
                  && s'.jobs[id].comp == s.jobs[id].comp
                  && s'.jobs[id].stamp == (if Touches(s, a, id) then s.now else s.jobs[id].stamp)
                  && s'.jobs[id].complete == (s.jobs[id].complete || (a.Finish? && Touches(s, a, id))))
  {
  }

  /** From the moment a job is touched its time does not go back and its completion stays. */
  lemma {:induction false} JobHistory(tr: seq<State>, acts: seq<Action>, a: nat, b: nat, id: JobId)
    requires Run(tr, acts) && a <= b < |tr| && id in tr[a].used && id in tr[b].jobs
    ensures id in tr[a].jobs && tr[b].jobs[id].stamp >= tr[a].jobs[id].stamp
    ensures tr[a].jobs[id].complete ==> tr[b].jobs[id].complete
    ensures (forall k :: a <= k < b ==> !Touches(tr[k], acts[k], id)) ==> tr[b].jobs[id].stamp == tr[a].jobs[id].stamp
  {
    hide Inv, JobsOk, Touches, Apply, Enabled;
    if a < b {
      InvHolds(tr, acts, b - 1);
      UsedStays(tr, acts, a, b - 1, id);
      JobStep(tr[b - 1], acts[b - 1], id);
      JobHistory(tr, acts, a, b - 1, id);
      JobsOkHolds(tr, acts, b - 1);
      StampIsPast(tr[b - 1], id);
    }
  }

  lemma StampIsPast(s: State, id: JobId)
    requires JobsOk(s) && id in s.jobs
    ensures s.jobs[id].stamp <= s.now
  {
  }

  lemma {:induction false} UsedStays(tr: seq<State>, acts: seq<Action>, a: nat, b: nat, id: JobId)
    requires Run(tr, acts) && a <= b < |tr| && id in tr[a].used
    ensures id in tr[b].used
  {
    if a < b {
      UsedStays(tr, acts, a, b - 1, id);
      InvHolds(tr, acts, b - 1);
      JobStep(tr[b - 1], acts[b - 1], id);
    }
  }

  // ---- What is read as expired ----

  /** A job that gave a sign of life less than 20 seconds ago is not read. */
  lemma KeptAliveIsNotRead(tr: seq<State>, acts: seq<Action>, a: nat, b: nat, id: JobId)
    requires Run(tr, acts) && a < b < |acts| && acts[a].KeepAlive? && Touches(tr[a], acts[a], id) && id in tr[a].jobs
    requires acts[b].ReadExpired? && tr[b].now < tr[a].now + 20
    ensures id !in tr[b + 1].insts[acts[b].i].read
  {
    InvHolds(tr, acts, a);
    JobStep(tr[a], acts[a], id);
    if id in tr[b].jobs {
      JobHistory(tr, acts, a + 1, b, id);
      JobsOkHolds(tr, acts, b);
    }
  }

  /** A job that nobody touched for 20 seconds is read, as it is then. */
  lemma IdleIsRead(tr: seq<State>, acts: seq<Action>, a: nat, b: nat, id: JobId)
    requires Run(tr, acts) && a <= b < |acts| && id in tr[a].jobs && id in tr[b].jobs
    requires forall k :: a <= k < b ==> !Touches(tr[k], acts[k], id)
    requires acts[b].ReadExpired? && tr[b].now >= tr[a].now + 20
    ensures id in tr[b + 1].insts[acts[b].i].read && tr[b + 1].insts[acts[b].i].read[id] == tr[b].jobs[id]
  {
    InvHolds(tr, acts, a);
    JobHistory(tr, acts, a, b, id);
    JobsOkHolds(tr, acts, a);
    JobsOkHolds(tr, acts, b);
  }

  /** A poll that has finished is read as complete, if it is read at all. */
  lemma FinishedIsReadAsSuch(tr: seq<State>, acts: seq<Action>, a: nat, b: nat, id: JobId)
    requires Run(tr, acts) && a < b < |acts| && acts[a].Finish? && Touches(tr[a], acts[a], id) && id in tr[a].jobs
    requires acts[b].ReadExpired? && id in tr[b + 1].insts[acts[b].i].read
    ensures tr[b + 1].insts[acts[b].i].read[id].complete
  {
    InvHolds(tr, acts, a);
    JobStep(tr[a], acts[a], id);
    JobHistory(tr, acts, a + 1, b, id);
  }

  // ---- What is adopted ----

  /** A job that was read is deleted. It is adopted, by the instance whose delete found it, exactly
      if it was not complete when it was read. */
  lemma DeletedOrAdopted(s: State, i: nat, id: JobId)
    requires Enabled(s, TryDelete(i, id))
    ensures var s', job := Apply(s, TryDelete(i, id)), s.insts[i].read[id];
            && s'.jobs == s.jobs - {id} && s'.insts[i].read == s.insts[i].read - {id}
            && (id in s.jobs && !job.complete ==>
                  s'.adoptions == s.adoptions + [(i, id)] && s'.insts[i].remaking == Some(job.comp))
            && (id !in s.jobs || job.complete ==> s'.adoptions == s.adoptions && s'.insts[i].remaking.None?)
  {
  }

  /** An adopted job is made anew for its component, incomplete and as of now, unless there is a poll
      for it by then. */
  lemma AdoptedIsRemade(s: State, i: nat, id: JobId)
    requires Enabled(s, Remake(i, id))
    ensures var s', comp := Apply(s, Remake(i, id)), s.insts[i].remaking.value;
            && s'.insts[i].remaking.None?
            && if exists other :: other in s.jobs && s.jobs[other].comp == comp then s'.jobs == s.jobs
               else && s'.jobs == s.jobs[id := Job(comp, false, s.now, 20)]
                    && comp in s'.insts[i].polls && s'.insts[i].polls[comp] == id
  {
  }

  /** The number of polls started is that of the steps that start one. */
  lemma {:induction false} PollsAreCounted(acts: seq<Action>)
    ensures Polls(acts) == |set n | 0 <= n < |acts| && acts[n].StartPoll?|
  {
    if acts != [] {
      var last := |acts| - 1;
      PollsAreCounted(acts[..last]);
      var before := set n | 0 <= n < last && acts[..last][n].StartPoll?;
      var all := set n | 0 <= n < |acts| && acts[n].StartPoll?;
      assert all == before + if acts[last].StartPoll? then {last} else {};
    }
  }

  // ---- It happens ----

  /** An instance starts a poll and leaves; another one reads the job 20 seconds later, deletes it
      and makes it anew. */
  function AdoptionActs(comp: string): seq<Action> {
    [Join(1), StartPoll(1, comp, 0), Leave(1), Join(2), Tick(20), ReadExpired(2), TryDelete(2, 0), Remake(2, 1)]
  }

  function AdoptionState(comp: string, n: nat): State
    requires n < 9
  {
    var idle := Instance(map[], map[], None);
    var job := Job(comp, false, 0, 20);
    if n == 0 then State(0, map[], {}, map[], [])
    else if n == 1 then State(0, map[], {}, map[1 := idle], [])
    else if n == 2 then State(0, map[0 := job], {0}, map[1 := Instance(map[comp := 0], map[], None)], [])
    else if n == 3 then State(0, map[0 := job], {0}, map[], [])
    else if n == 4 then State(0, map[0 := job], {0}, map[2 := idle], [])
    else if n == 5 then State(20, map[0 := job], {0}, map[2 := idle], [])
    else if n == 6 then State(20, map[0 := job], {0}, map[2 := Instance(map[], map[0 := job], None)], [])
    else if n == 7 then State(20, map[], {0}, map[2 := Instance(map[], map[], Some(comp))], [(2, 0)])
    else State(20, map[1 := Job(comp, false, 20, 20)], {0, 1}, map[2 := Instance(map[comp := 1], map[], None)], [(2, 0)])
  }

  lemma AdoptionStep(comp: string, n: nat)
    requires n < 8
    ensures Enabled(AdoptionState(comp, n), AdoptionActs(comp)[n])
    ensures Apply(AdoptionState(comp, n), AdoptionActs(comp)[n]) == AdoptionState(comp, n + 1)
  {
    if n < 5 {
      FirstAdoptionSteps(comp, n);
    } else {
      var s, next := AdoptionState(comp, n), AdoptionState(comp, n + 1);
      var s' := Apply(s, AdoptionActs(comp)[n]);
      assert s'.insts.Keys == {2} && s'.insts[2].read == next.insts[2].read;
      assert s'.insts == next.insts;
      assert s'.jobs == next.jobs;
    }
  }

  lemma FirstAdoptionSteps(comp: string, n: nat)
    requires n < 5
    ensures Enabled(AdoptionState(comp, n), AdoptionActs(comp)[n])
    ensures Apply(AdoptionState(comp, n), AdoptionActs(comp)[n]) == AdoptionState(comp, n + 1)
  {
  }

  lemma AdoptionHappens(comp: string) returns (tr: seq<State>)
    ensures Run(tr, AdoptionActs(comp)) && tr[8].adoptions == [(2, 0)]
    ensures tr[8].jobs == map[1 := Job(comp, false, 20, 20)]
    ensures tr[8].insts == map[2 := Instance(map[comp := 1], map[], None)]
  {
    var acts := AdoptionActs(comp);
    tr := seq(9, n requires 0 <= n < 9 => AdoptionState(comp, n));
    forall n | 0 <= n < 8 ensures Enabled(tr[n], acts[n]) && tr[n + 1] == Apply(tr[n], acts[n]) {
      AdoptionStep(comp, n);
    }
  }
}
