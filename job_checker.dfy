/**
 * The in-memory job registry of the job checker: a dictionary from job id to `JobInfo`, written
 * by `AddJob` and updated in place by `UpdateJobStatus`. Times are `DateTime` ticks; the clock
 * is a parameter.
 */
module JobChecking {
  import opened Wrappers

  /** `JobInfo`; `EndTime` is None until a terminal status arrives. */
  datatype JobInfo = JobInfo(jobId: string, documentName: string, status: string,
                             startTime: int, endTime: Option<int>, lastUpdateTime: int)

  /** `DateTime`'s default value, which `LastUpdateTime` holds until the first update. */
  const DefaultTime: int := 0

  /** `status is "SUCCEEDED" or "FAILED"`. */
  predicate IsTerminal(status: string)
  {
    status == "SUCCEEDED" || status == "FAILED"
  }

  /** The record after one status update at time `now`. */
  function Updated(job: JobInfo, status: string, now: int): JobInfo
  {
    job.(status := status, lastUpdateTime := now,
         endTime := if IsTerminal(status) then Some(now) else job.endTime)
  }

  /** The dictionary after `UpdateJobStatus(jobId, status)` at time `now`. */
  function ApplyUpdate(jobs: map<string, JobInfo>, jobId: string, status: string, now: int): map<string, JobInfo>
  {
    if jobId in jobs then jobs[jobId := Updated(jobs[jobId], status, now)] else jobs
  }

  class JobTracker {
    /** `_jobs`. */
    var jobs: map<string, JobInfo>

    constructor()
      ensures jobs == map[]
    {
      jobs := map[];
    }

    /** `AddJob`: stores a fresh STARTED record under `jobId`, replacing any earlier one. */
    method AddJob(jobId: string, documentName: string, now: int)
      modifies this
      ensures jobs == old(jobs)[jobId := JobInfo(jobId, documentName, "STARTED", now, None, DefaultTime)]
    {
      jobs := jobs[jobId := JobInfo(jobId, documentName, "STARTED", now, None, DefaultTime)];
    }

    /** `UpdateJobStatus`: updates the record of a known id; an unknown id is ignored. */
    method UpdateJobStatus(jobId: string, status: string, now: int)
      modifies this
      ensures jobs == ApplyUpdate(old(jobs), jobId, status, now)
    {
      if jobId in jobs {
        var job := jobs[jobId];
        job := job.(status := status, lastUpdateTime := now);
        if status == "SUCCEEDED" || status == "FAILED" {
          job := job.(endTime := Some(now));
        }
        jobs := jobs[jobId := job];
      }
    }
  }

  /**
   * An update keeps the key set and every other record; the updated record gets the status and
   * the time, keeps its id, document and start time, and gets an end time exactly when the new
   * status is terminal.
   */
  lemma ApplyUpdateEffect(jobs: map<string, JobInfo>, jobId: string, status: string, now: int)
    ensures var r := ApplyUpdate(jobs, jobId, status, now);
      && r.Keys == jobs.Keys
      && (forall id :: id in jobs && id != jobId ==> r[id] == jobs[id])
      && (jobId in jobs ==>
            && r[jobId].status == status
            && r[jobId].lastUpdateTime == now
            && r[jobId].jobId == jobs[jobId].jobId
            && r[jobId].documentName == jobs[jobId].documentName
            && r[jobId].startTime == jobs[jobId].startTime
            && (IsTerminal(status) ==> r[jobId].endTime == Some(now))
            && (!IsTerminal(status) ==> r[jobId].endTime == jobs[jobId].endTime))
  {
  }

  /** One status report received at a given time. */
  datatype Report = Report(status: string, time: int)

  /** The record after the reports were applied in order. */
  function ApplyAll(job: JobInfo, reports: seq<Report>): JobInfo
  {
    if reports == [] then job
    else
      var last := reports[|reports| - 1];
      Updated(ApplyAll(job, reports[..|reports| - 1]), last.status, last.time)
  }

  /** The time of the last report with a terminal status, if any. */
  function LastTerminalTime(reports: seq<Report>): (t: Option<int>)
    ensures t.Some? <==> exists i :: 0 <= i < |reports| && IsTerminal(reports[i].status)
    ensures t.Some? ==> exists i :: 0 <= i < |reports| && IsTerminal(reports[i].status)
                          && reports[i].time == t.value
                          && forall j :: i < j < |reports| ==> !IsTerminal(reports[j].status)
    decreases |reports|
  {
    if reports == [] then None
    else
      var init, last := reports[..|reports| - 1], reports[|reports| - 1];
      if IsTerminal(last.status) then Some(last.time)
      else
        var t := LastTerminalTime(init);
        assert forall i :: 0 <= i < |init| ==> init[i] == reports[i];
        t
  }

  /**
   * After a series of updates the end time is the time of the last terminal report (the old end
   * time when there was none), and the status and last update time are those of the last report.
   */
  lemma {:induction false} ApplyAllTimes(job: JobInfo, reports: seq<Report>)
    ensures ApplyAll(job, reports).endTime ==
      if LastTerminalTime(reports).Some? then LastTerminalTime(reports) else job.endTime
    ensures reports != [] ==>
      ApplyAll(job, reports).status == reports[|reports| - 1].status
      && ApplyAll(job, reports).lastUpdateTime == reports[|reports| - 1].time
  {
    if reports != [] {
      ApplyAllTimes(job, reports[..|reports| - 1]);
    }
  }
}
