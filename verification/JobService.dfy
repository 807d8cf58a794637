/** The polling jobs of one service instance: its local lists, the job table it shares, and one
    pass of its job sync over the expired jobs it has read. */
module JobService {
  import opened Wrappers
  import opened JobProtocol

  /** A job as read by the sync, with its id. */
  datatype ReadJob = ReadJob(id: JobId, job: Job)

  ghost predicate OnePerComponent(jobs: map<JobId, Job>) {
    forall id, id' :: id in jobs && id' in jobs && jobs[id].comp == jobs[id'].comp ==> id == id'
  }

  /** Ids for the new jobs of a pass, not used before. */
  predicate Unused(ids: seq<JobId>, jobs: map<JobId, Job>, read: seq<ReadJob>) {
    && (forall i, j :: 0 <= i < j < |ids| ==> ids[i] != ids[j])
    && (forall i :: 0 <= i < |ids| ==> ids[i] !in jobs && forall r :: r in read ==> r.id != ids[i])
  }

  /** The jobs a pass has read and still finds. */
  ghost predicate StillThere(jobs: map<JobId, Job>, read: seq<ReadJob>) {
    && (forall i, j :: 0 <= i < j < |read| ==> read[i].id != read[j].id)
    && forall r :: r in read && r.id in jobs ==> jobs[r.id].comp == r.job.comp
  }

  class JobService {
    var jobs: map<JobId, Job>          // the table
    var jobList: map<JobId, string>
    var srfpJobList: map<string, JobId>

    /** Every polled component's job is in the job list. */
    ghost predicate Valid()
      reads this
    {
      && OnePerComponent(jobs)
      && forall comp :: comp in srfpJobList ==> srfpJobList[comp] in jobList && jobList[srfpJobList[comp]] == comp
    }

    constructor (jobs: map<JobId, Job>)
      requires OnePerComponent(jobs)
      ensures Valid() && this.jobs == jobs && jobList == map[] && srfpJobList == map[]
    {
      this.jobs := jobs;
      jobList, srfpJobList := map[], map[];
    }

    /** Starts a poll unless the component has one, here or elsewhere. */
    method DoStateRFPoll(comp: string, id: JobId, now: nat) returns (started: bool)
      requires Valid() && id !in jobs && id !in jobList
      modifies this
      ensures Valid()
      ensures started <==> !HasPoll(old(jobs), comp)
      ensures started ==> jobs == old(jobs)[id := Job(comp, false, now, LIFETIME)] && srfpJobList == old(srfpJobList)[comp := id]
                          && jobList == old(jobList)[id := comp]
      ensures !started ==> jobs == old(jobs) && jobList == old(jobList) && srfpJobList == old(srfpJobList)
    {
      if HasPoll(jobs, comp) {
        return false;
      }
      jobs := jobs[id := Job(comp, false, now, LIFETIME)];
      jobList := jobList[id := comp];
      srfpJobList := srfpJobList[comp := id];
      return true;
    }

    /** Stops the poll of a component that this instance knows of; afterwards a poll it started
        for the component is neither in its lists nor in the table. */
    method CancelStateRFPoll(comp: string)
      requires Valid()
      modifies this
      ensures Valid() && comp !in srfpJobList
      ensures comp !in old(srfpJobList) ==> jobs == old(jobs) && jobList == old(jobList) && srfpJobList == old(srfpJobList)
      ensures comp in old(srfpJobList) ==>
                var id := old(srfpJobList)[comp];
                jobs == old(jobs) - {id} && jobList == old(jobList) - {id} && srfpJobList == old(srfpJobList) - {comp}
    {
      if comp in srfpJobList {
        var id := srfpJobList[comp];
        jobs := jobs - {id};
        srfpJobList := srfpJobList - {comp};
        jobList := jobList - {id};
      }
    }

    method DeleteJob(id: JobId) returns (didDelete: bool)
      modifies this`jobs
      ensures didDelete <==> id in old(jobs)
      ensures jobs == old(jobs) - {id}
    {
      didDelete := id in jobs;
      jobs := jobs - {id};
    }

    /** Takes on one job read as expired: a complete one is deleted, any other is deleted and,
        if this delete found it, made anew. */
    method TakeOn(r: ReadJob, id: JobId, now: nat) returns (adopted: bool)
      requires Valid() && id !in jobs && id !in jobList && (r.id in jobs ==> jobs[r.id].comp == r.job.comp)
      modifies this
      ensures Valid()
      ensures adopted <==> !r.job.complete && r.id in old(jobs)
      ensures jobs == TakenOn(old(jobs), r, id, now)
      ensures jobList.Keys <= old(jobList).Keys + {id}
    {
      adopted := false;
      if r.job.complete {
        var _ := DeleteJob(r.id);
      } else {
        ghost var found := r.id in jobs;
        assert forall other :: other in jobs && jobs[other].comp == r.job.comp && found ==> other == r.id;
        var didDelete := DeleteJob(r.id);
        if !didDelete {
          return;
        }
        var started := DoStateRFPoll(r.job.comp, id, now);
        adopted := true;
      }
    }

    /** One pass over jobs read as expired, undisturbed by other instances. */
    method JobSync(read: seq<ReadJob>, ids: seq<JobId>, now: nat) returns (numNewJobs: nat)
      requires Valid() && |ids| == |read| && Unused(ids, jobs, read) && StillThere(jobs, read)
      requires forall i :: 0 <= i < |ids| ==> ids[i] !in jobList
      modifies this
      ensures Valid()
      ensures jobs == AfterPass(old(jobs), read, ids, now)
      ensures numNewJobs == Adoptable(old(jobs), read)
    {
      numNewJobs := 0;
      for i := 0 to |read|
        invariant Valid() && numNewJobs == Adoptable(old(jobs), read[..i])
        invariant jobs == AfterPass(old(jobs), read[..i], ids[..i], now)
        invariant forall j :: i <= j < |ids| ==> ids[j] !in jobs && ids[j] !in jobList
        invariant forall j :: i <= j < |read| ==> Lookup(jobs, read[j].id) == Lookup(old(jobs), read[j].id)
      {
        assert read[..i + 1][..i] == read[..i] && ids[..i + 1][..i] == ids[..i];
        assert read[i] in read;
        var adopted := TakeOn(read[i], ids[i], now);
        if adopted {
          numNewJobs := numNewJobs + 1;
        }
      }
      assert read[..|read|] == read && ids[..|read|] == ids;
    }
  }

  /** How many of the jobs read are incomplete and still there. */
  function Adoptable(jobs: map<JobId, Job>, read: seq<ReadJob>): nat {
    if read == [] then 0
    else
      var n := |read| - 1;
      Adoptable(jobs, read[..n]) + if !read[n].job.complete && read[n].id in jobs then 1 else 0
  }

  function TakenOn(jobs: map<JobId, Job>, r: ReadJob, id: JobId, now: nat): map<JobId, Job> {
    if !r.job.complete && r.id in jobs then (jobs - {r.id})[id := Job(r.job.comp, false, now, LIFETIME)]
    else jobs - {r.id}
  }

  function AfterPass(jobs: map<JobId, Job>, read: seq<ReadJob>, ids: seq<JobId>, now: nat): map<JobId, Job>
    requires |ids| == |read|
  {
    if read == [] then jobs
    else
      var n := |read| - 1;
      TakenOn(AfterPass(jobs, read[..n], ids[..n], now), read[n], ids[n], now)
  }

  lemma UnusedPrefix(ids: seq<JobId>, jobs: map<JobId, Job>, read: seq<ReadJob>, n: nat)
    requires Unused(ids, jobs, read) && StillThere(jobs, read) && n <= |ids| == |read|
    ensures Unused(ids[..n], jobs, read[..n]) && StillThere(jobs, read[..n])
  {
    assert forall r :: r in read[..n] ==> r in read;
  }

  predicate WasRead(read: seq<ReadJob>, id: JobId) {
    exists i :: 0 <= i < |read| && read[i].id == id
  }

  /** The new job for what was read, if it is made: only for an incomplete job still there. */
  function Remade(jobs: map<JobId, Job>, r: ReadJob, now: nat): Option<Job> {
    if !r.job.complete && r.id in jobs then Some(Job(r.job.comp, false, now, LIFETIME)) else None
  }

  function Lookup(jobs: map<JobId, Job>, id: JobId): Option<Job> {
    if id in jobs then Some(jobs[id]) else None
  }

  /** What became of every id after a pass. */
  ghost predicate Replaced(jobs: map<JobId, Job>, read: seq<ReadJob>, ids: seq<JobId>, now: nat, after: map<JobId, Job>)
    requires |ids| == |read|
  {
    && (forall i :: 0 <= i < |ids| ==> Lookup(after, ids[i]) == Remade(jobs, read[i], now))
    && (forall id :: id !in ids ==> Lookup(after, id) == if WasRead(read, id) then None else Lookup(jobs, id))
  }

  lemma ReplacedStep(jobs: map<JobId, Job>, front: seq<ReadJob>, ids: seq<JobId>, r: ReadJob, id: JobId, now: nat,
                     before: map<JobId, Job>)
    requires |ids| == |front| && Replaced(jobs, front, ids, now, before)
    requires id !in ids && id != r.id && r.id !in ids && id !in jobs && !WasRead(front, r.id) && !WasRead(front, id)
    ensures Replaced(jobs, front + [r], ids + [id], now, TakenOn(before, r, id, now))
  {
    var after, read, all := TakenOn(before, r, id, now), front + [r], ids + [id];
    assert Lookup(before, r.id) == Lookup(jobs, r.id) && Lookup(before, id) == None;
    assert r.id in before <==> r.id in jobs;
    forall i | 0 <= i < |all| ensures Lookup(after, all[i]) == Remade(jobs, read[i], now) {
      if i < |ids| {
        assert all[i] == ids[i] && ids[i] in ids && read[i] == front[i];
        assert Lookup(before, ids[i]) == Remade(jobs, front[i], now);
      }
    }
    forall other | other !in all ensures Lookup(after, other) == if WasRead(read, other) then None else Lookup(jobs, other) {
      assert other !in ids && other !in [id];
      ReadOneMore(front, r, other);
    }
  }

  lemma ReadOneMore(front: seq<ReadJob>, r: ReadJob, id: JobId)
    ensures WasRead(front + [r], id) <==> WasRead(front, id) || r.id == id
  {
    var read := front + [r];
    assert read[|front|] == r;
    if i :| 0 <= i < |front| && front[i].id == id {
      assert read[i].id == id;
    }
  }

  /** After a pass, jobs that were not read are as before, those read are gone, and exactly the
      incomplete ones that were still there are back under a new id: a pass keeps the polls of
      all components but those whose job was complete. */
  lemma {:induction false} PassReplaces(jobs: map<JobId, Job>, read: seq<ReadJob>, ids: seq<JobId>, now: nat)
    requires |ids| == |read| && Unused(ids, jobs, read) && StillThere(jobs, read)
    ensures Replaced(jobs, read, ids, now, AfterPass(jobs, read, ids, now))
  {
    if read != [] {
      var n := |read| - 1;
      assert read == read[..n] + [read[n]] && ids == ids[..n] + [ids[n]];
      assert read[n] in read;
      UnusedPrefix(ids, jobs, read, n);
      PassReplaces(jobs, read[..n], ids[..n], now);
      ReplacedStep(jobs, read[..n], ids[..n], read[n], ids[n], now, AfterPass(jobs, read[..n], ids[..n], now));
    }
  }

  /** The number a pass reports is that of the jobs it makes anew. */
  lemma {:induction false} AdoptableCounts(jobs: map<JobId, Job>, read: seq<ReadJob>, now: nat)
    ensures Adoptable(jobs, read) == |set i | 0 <= i < |read| && Remade(jobs, read[i], now).Some?|
  {
    if read != [] {
      var n := |read| - 1;
      AdoptableCounts(jobs, read[..n], now);
      var before := set i | 0 <= i < n && Remade(jobs, read[..n][i], now).Some?;
      var all := set i | 0 <= i < |read| && Remade(jobs, read[i], now).Some?;
      assert all == before + if Remade(jobs, read[n], now).Some? then {n} else {};
    }
  }
}
