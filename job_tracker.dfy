/**
 * The job registry of the core service: a list of `JobInfo` records, appended to, updated and
 * pruned in place, and queried with first-match lookups and stable orderings by creation time.
 * Times are `DateTime` ticks; the clock is a parameter.
 */
module JobTracking {
  import opened Wrappers
  import opened Lists

  /** `JobInfo`; `UpdatedAt` is None until the first status update. */
  datatype JobInfo = JobInfo(jobId: string, documentName: string, bucketName: string,
                             status: string, createdAt: int, updatedAt: Option<int>)

  function JobIdOf(j: JobInfo): string { j.jobId }
  function DocumentOf(j: JobInfo): string { j.documentName }
  function CreatedAt(j: JobInfo): int { j.createdAt }
  /** The sort key of `OrderByDescending(j => j.CreatedAt)`. */
  function NewestFirst(j: JobInfo): int { -j.createdAt }

  predicate IsTerminal(status: string)
  {
    status == "SUCCEEDED" || status == "FAILED"
  }

  /** `TimeSpan.TicksPerDay`. */
  const TicksPerDay: int := 864_000_000_000

  /** `Where(j => j.Status != "SUCCEEDED" && j.Status != "FAILED")`, in list order. */
  function Pending(jobs: seq<JobInfo>): seq<JobInfo>
  {
    if jobs == [] then []
    else
      var last := jobs[|jobs| - 1];
      Pending(jobs[..|jobs| - 1]) + if IsTerminal(last.status) then [] else [last]
  }

  /** The pending records are the unfinished ones, each as often as in the list. */
  lemma {:induction false} PendingCounts(jobs: seq<JobInfo>)
    ensures forall j :: multiset(Pending(jobs))[j] == if IsTerminal(j.status) then 0 else multiset(jobs)[j]
  {
    if jobs != [] {
      var init, last := jobs[..|jobs| - 1], jobs[|jobs| - 1];
      PendingCounts(init);
      assert jobs == init + [last];
    }
  }

  /** A record `CleanupOldJobs` removes: finished, and created before the cutoff. */
  predicate Expired(j: JobInfo, cutoff: int)
  {
    j.createdAt < cutoff && IsTerminal(j.status)
  }

  /** The records left by `CleanupOldJobs` with cutoff `cutoff`, in list order. */
  function Survivors(jobs: seq<JobInfo>, cutoff: int): seq<JobInfo>
  {
    if jobs == [] then []
    else
      var last := jobs[|jobs| - 1];
      Survivors(jobs[..|jobs| - 1], cutoff) + if Expired(last, cutoff) then [] else [last]
  }

  /** A cleanup removes every copy of each expired record and nothing else. */
  lemma {:induction false} SurvivorsCounts(jobs: seq<JobInfo>, cutoff: int)
    ensures forall j :: multiset(Survivors(jobs, cutoff))[j] == if Expired(j, cutoff) then 0 else multiset(jobs)[j]
  {
    if jobs != [] {
      var init, last := jobs[..|jobs| - 1], jobs[|jobs| - 1];
      SurvivorsCounts(init, cutoff);
      assert jobs == init + [last];
    }
  }

  /** The list after the first record with id `jobId`, if any, got a new status at time `now`. */
  function WithStatus(jobs: seq<JobInfo>, jobId: string, status: string, now: int): seq<JobInfo>
  {
    match FirstIndexOf(jobs, JobIdOf, jobId)
    case None => jobs
    case Some(i) => jobs[i := jobs[i].(status := status, updatedAt := Some(now))]
  }

  /** The list after the first record with id `jobId`, if any, was removed. */
  function WithoutJob(jobs: seq<JobInfo>, jobId: string): seq<JobInfo>
  {
    match FirstIndexOf(jobs, JobIdOf, jobId)
    case None => jobs
    case Some(i) => jobs[..i] + jobs[i + 1..]
  }

  class JobTracker {
    /** `_jobs`, in insertion order. */
    var jobs: seq<JobInfo>

    /** The tracker over the records `LoadJobs` read. */
    constructor(loaded: seq<JobInfo>)
      ensures jobs == loaded
    {
      jobs := loaded;
    }

    /** `AddJob`: appends a SUBMITTED record created at `now`; duplicates are not rejected. */
    method AddJob(jobId: string, documentName: string, bucketName: string, now: int)
      modifies this
      ensures jobs == old(jobs) + [JobInfo(jobId, documentName, bucketName, "SUBMITTED", now, None)]
    {
      var job := JobInfo(jobId, documentName, bucketName, "SUBMITTED", now, None);
      jobs := jobs + [job];
    }

    /** `GetJob`: the first record with id `jobId`, or None. */
    function GetJob(jobId: string): (r: Option<JobInfo>)
      reads this
      ensures r.None? <==> forall i :: 0 <= i < |jobs| ==> jobs[i].jobId != jobId
      ensures r.Some? ==> exists i :: IsFirstWithKey(jobs, JobIdOf, jobId, i) && r.value == jobs[i]
    {
      FirstWith(jobs, JobIdOf, jobId)
    }

    /** `GetJobByDocument`: the first record for document `documentName`, or None. */
    function GetJobByDocument(documentName: string): (r: Option<JobInfo>)
      reads this
      ensures r.None? <==> forall i :: 0 <= i < |jobs| ==> jobs[i].documentName != documentName
      ensures r.Some? ==> exists i :: IsFirstWithKey(jobs, DocumentOf, documentName, i) && r.value == jobs[i]
    {
      FirstWith(jobs, DocumentOf, documentName)
    }

    /** `UpdateJobStatus`: the first record with that id gets the status and `UpdatedAt = now`. */
    method UpdateJobStatus(jobId: string, status: string, now: int)
      modifies this
      ensures jobs == WithStatus(old(jobs), jobId, status, now)
    {
      var found := FirstIndexOf(jobs, JobIdOf, jobId);
      if found.Some? {
        var i := found.value;
        jobs := jobs[i := jobs[i].(status := status, updatedAt := Some(now))];
      }
    }

    /** `GetAllJobs`: every record, newest first; records created at the same time keep their order. */
    function GetAllJobs(): (r: seq<JobInfo>)
      reads this
      ensures SortedBy(r, NewestFirst)
      ensures multiset(r) == multiset(jobs)
      ensures forall k :: WithKey(r, NewestFirst, k) == WithKey(jobs, NewestFirst, k)
    {
      SortBy(jobs, NewestFirst)
    }

    /** `GetPendingJobs`: the unfinished records, oldest first, stably. */
    function GetPendingJobs(): (r: seq<JobInfo>)
      reads this
      ensures SortedBy(r, CreatedAt)
      ensures forall j :: multiset(r)[j] == if IsTerminal(j.status) then 0 else multiset(jobs)[j]
      ensures forall k :: WithKey(r, CreatedAt, k) == WithKey(Pending(jobs), CreatedAt, k)
    {
      PendingCounts(jobs);
      SortBy(Pending(jobs), CreatedAt)
    }

    /** `RemoveJob`: drops the first record with that id, if any. */
    method RemoveJob(jobId: string)
      modifies this
      ensures jobs == WithoutJob(old(jobs), jobId)
    {
      var found := FirstIndexOf(jobs, JobIdOf, jobId);
      if found.Some? {
        var i := found.value;
        jobs := jobs[..i] + jobs[i + 1..];
      }
    }

    /**
     * `CleanupOldJobs`: drops the finished records created more than `daysToKeep` days before
     * `now`; the rest keep their order.
     */
    method CleanupOldJobs(now: int, daysToKeep: int := 30)
      modifies this
      ensures jobs == Survivors(old(jobs), now - daysToKeep * TicksPerDay)
    {
      var cutoff := now - daysToKeep * TicksPerDay;
      var kept: seq<JobInfo> := [];
      var i := 0;
      while i < |jobs|
        invariant 0 <= i <= |jobs|
        invariant kept == Survivors(jobs[..i], cutoff)
      {
        if !Expired(jobs[i], cutoff) {
          kept := kept + [jobs[i]];
        }
        assert jobs[..i + 1][..i] == jobs[..i];
        i := i + 1;
      }
      assert jobs[..i] == jobs;
      jobs := kept;
    }
  }

  /**
   * A status update changes the first record with that id, and only that one: it gets the new
   * status and time, every other position (a later record with the same id included) keeps its
   * record, and a lookup afterwards sees the update. An unknown id changes nothing.
   */
  lemma WithStatusEffect(jobs: seq<JobInfo>, jobId: string, status: string, now: int)
    ensures var r := WithStatus(jobs, jobId, status, now);
      && |r| == |jobs|
      && (forall i :: IsFirstWithKey(jobs, JobIdOf, jobId, i) ==>
            && r[i] == jobs[i].(status := status, updatedAt := Some(now))
            && forall j :: 0 <= j < |jobs| && j != i ==> r[j] == jobs[j])
      && ((forall i :: 0 <= i < |jobs| ==> jobs[i].jobId != jobId) ==> r == jobs)
      && FirstWith(r, JobIdOf, jobId) ==
           match FirstWith(jobs, JobIdOf, jobId)
           case None => None
           case Some(j) => Some(j.(status := status, updatedAt := Some(now)))
  {
    var r := WithStatus(jobs, jobId, status, now);
    match FirstIndexOf(jobs, JobIdOf, jobId)
    case None =>
    case Some(i) =>
      forall i' | IsFirstWithKey(jobs, JobIdOf, jobId, i') ensures i' == i {
        FirstWithKeyUnique(jobs, JobIdOf, jobId, i, i');
      }
      assert forall j :: 0 <= j < |jobs| ==> r[j].jobId == jobs[j].jobId;
      assert IsFirstWithKey(r, JobIdOf, jobId, i);
      var k :| IsFirstWithKey(r, JobIdOf, jobId, k) && FirstWith(r, JobIdOf, jobId).value == r[k];
      FirstWithKeyUnique(r, JobIdOf, jobId, i, k);
      var k' :| IsFirstWithKey(jobs, JobIdOf, jobId, k') && FirstWith(jobs, JobIdOf, jobId).value == jobs[k'];
      FirstWithKeyUnique(jobs, JobIdOf, jobId, i, k');
  }

  /** Removal drops exactly one copy of the record `GetJob` returns; an unknown id changes nothing. */
  lemma WithoutJobEffect(jobs: seq<JobInfo>, jobId: string)
    ensures var r := WithoutJob(jobs, jobId);
      match FirstWith(jobs, JobIdOf, jobId)
      case None => r == jobs
      case Some(j) => |r| == |jobs| - 1 && multiset(r) == multiset(jobs) - multiset{j}
  {
    match FirstIndexOf(jobs, JobIdOf, jobId)
    case None =>
    case Some(i) =>
      assert jobs == jobs[..i] + [jobs[i]] + jobs[i + 1..];
      var k :| IsFirstWithKey(jobs, JobIdOf, jobId, k) && FirstWith(jobs, JobIdOf, jobId).value == jobs[k];
      FirstWithKeyUnique(jobs, JobIdOf, jobId, i, k);
  }

  /**
   * Removal keeps the order: the records before the first one with that id stay where they are,
   * and the records after it move up by one.
   */
  lemma WithoutJobOrder(jobs: seq<JobInfo>, jobId: string, i: int)
    requires IsFirstWithKey(jobs, JobIdOf, jobId, i)
    ensures var r := WithoutJob(jobs, jobId);
      && |r| == |jobs| - 1
      && (forall k :: 0 <= k < i ==> r[k] == jobs[k])
      && (forall k :: i <= k < |r| ==> r[k] == jobs[k + 1])
  {
    var found := FirstIndexOf(jobs, JobIdOf, jobId);
    FirstWithKeyUnique(jobs, JobIdOf, jobId, i, found.value);
  }

  /** Unfinished records survive a cleanup whatever their age, in their order. */
  lemma {:induction false} CleanupKeepsPending(jobs: seq<JobInfo>, cutoff: int)
    ensures Pending(Survivors(jobs, cutoff)) == Pending(jobs)
  {
    if jobs != [] {
      var init, last := jobs[..|jobs| - 1], jobs[|jobs| - 1];
      CleanupKeepsPending(init, cutoff);
      PendingAppend(Survivors(init, cutoff), if Expired(last, cutoff) then [] else [last]);
    }
  }

  lemma {:induction false} PendingAppend(a: seq<JobInfo>, b: seq<JobInfo>)
    ensures Pending(a + b) == Pending(a) + Pending(b)
    decreases |b|
  {
    if b == [] {
      assert a + b == a;
    } else {
      var init := b[..|b| - 1];
      PendingAppend(a, init);
      assert (a + b)[..|a + b| - 1] == a + init;
    }
  }

  /** A second cleanup with the same cutoff removes nothing. */
  lemma {:induction false} CleanupIdempotent(jobs: seq<JobInfo>, cutoff: int)
    ensures Survivors(Survivors(jobs, cutoff), cutoff) == Survivors(jobs, cutoff)
  {
    if jobs != [] {
      var init, last := jobs[..|jobs| - 1], jobs[|jobs| - 1];
      CleanupIdempotent(init, cutoff);
      var s := Survivors(init, cutoff);
      if !Expired(last, cutoff) {
        assert (s + [last])[..|s + [last]| - 1] == s;
        assert Survivors(s + [last], cutoff) == Survivors(s, cutoff) + [last];
      } else {
        assert Survivors(jobs, cutoff) == s + [];
        assert s + [] == s;
        assert Survivors(Survivors(jobs, cutoff), cutoff) == Survivors(s, cutoff);
      }
    }
  }
}
