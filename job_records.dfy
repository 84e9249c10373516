/**
 * The processed-document log of the core service: a list of `JobRecord` values, appended to and
 * updated in place, and queried by job id and by document. The clock and the file system are
 * parameters.
 */
module JobRecords {
  import opened Wrappers
  import opened Lists

  /** `JobRecord`; `ProcessedDate` in `DateTime` ticks. */
  datatype JobRecord = JobRecord(jobId: string, documentName: string, status: string,
                                 processedDate: int, outputFile: string)

  function RecordJobId(r: JobRecord): string { r.jobId }

  /** Record `r` shows `documentName` processed: COMPLETED, with an output file that exists. */
  predicate ProcessedBy(r: JobRecord, documentName: string, fileExists: string -> bool)
  {
    r.documentName == documentName && r.status == "COMPLETED" && fileExists(r.outputFile)
  }

  /** `Any(r => ProcessedBy(r, ...))` over `records`. */
  function AnyProcessed(records: seq<JobRecord>, documentName: string, fileExists: string -> bool): (b: bool)
    ensures b <==> exists i :: 0 <= i < |records| && ProcessedBy(records[i], documentName, fileExists)
  {
    if records == [] then false
    else
      var init := records[..|records| - 1];
      var b := AnyProcessed(init, documentName, fileExists);
      assert forall i :: 0 <= i < |init| ==> init[i] == records[i];
      b || ProcessedBy(records[|records| - 1], documentName, fileExists)
  }

  /** The list after the first record with id `jobId`, if any, got status `status`. */
  function WithRecordStatus(records: seq<JobRecord>, jobId: string, status: string): seq<JobRecord>
  {
    match FirstIndexOf(records, RecordJobId, jobId)
    case None => records
    case Some(i) => records[i := records[i].(status := status)]
  }

  class JobRecordService {
    /** `_jobRecords`, in insertion order. */
    var records: seq<JobRecord>

    /** The service over the records `LoadJobRecords` read. */
    constructor(loaded: seq<JobRecord>)
      ensures records == loaded
    {
      records := loaded;
    }

    /** `AddJobRecord`: appends a record processed at `now`; duplicates are not rejected. */
    method AddJobRecord(jobId: string, documentName: string, status: string, outputFile: string, now: int)
      modifies this
      ensures records == old(records) + [JobRecord(jobId, documentName, status, now, outputFile)]
    {
      records := records + [JobRecord(jobId, documentName, status, now, outputFile)];
    }

    /** `UpdateJobStatus`: the first record with that id gets the new status. */
    method UpdateJobStatus(jobId: string, status: string)
      modifies this
      ensures records == WithRecordStatus(old(records), jobId, status)
    {
      var found := FirstIndexOf(records, RecordJobId, jobId);
      if found.Some? {
        var i := found.value;
        records := records[i := records[i].(status := status)];
      }
    }

    /** `GetJobRecord`: the first record with id `jobId`, or None. */
    function GetJobRecord(jobId: string): (r: Option<JobRecord>)
      reads this
      ensures r.None? <==> forall i :: 0 <= i < |records| ==> records[i].jobId != jobId
      ensures r.Some? ==> exists i :: IsFirstWithKey(records, RecordJobId, jobId, i) && r.value == records[i]
    {
      FirstWith(records, RecordJobId, jobId)
    }

    /**
     * `HasBeenProcessed`: some record of the document is COMPLETED and its output file exists
     * according to `fileExists`.
     */
    function HasBeenProcessed(documentName: string, fileExists: string -> bool): (b: bool)
      reads this
      ensures b <==> exists i :: 0 <= i < |records| && ProcessedBy(records[i], documentName, fileExists)
    {
      AnyProcessed(records, documentName, fileExists)
    }

    /** `GetAllJobRecords`: a copy of the list, same records in the same order. */
    function GetAllJobRecords(): (r: seq<JobRecord>)
      reads this
      ensures |r| == |records| && forall i :: 0 <= i < |r| ==> r[i] == records[i]
    {
      records[..]
    }
  }

  /**
   * A status update changes the status of the first record with that id, and nothing else: every
   * other position (a later record with the same id included) keeps its record, and a lookup
   * afterwards sees the new status. An unknown id changes nothing.
   */
  lemma WithRecordStatusEffect(records: seq<JobRecord>, jobId: string, status: string)
    ensures var r := WithRecordStatus(records, jobId, status);
      && |r| == |records|
      && (forall i :: IsFirstWithKey(records, RecordJobId, jobId, i) ==>
            && r[i] == records[i].(status := status)
            && forall j :: 0 <= j < |records| && j != i ==> r[j] == records[j])
      && ((forall i :: 0 <= i < |records| ==> records[i].jobId != jobId) ==> r == records)
      && FirstWith(r, RecordJobId, jobId) ==
           match FirstWith(records, RecordJobId, jobId)
           case None => None
           case Some(x) => Some(x.(status := status))
  {
    var r := WithRecordStatus(records, jobId, status);
    match FirstIndexOf(records, RecordJobId, jobId)
    case None =>
    case Some(i) =>
      forall i' | IsFirstWithKey(records, RecordJobId, jobId, i') ensures i' == i {
        FirstWithKeyUnique(records, RecordJobId, jobId, i, i');
      }
      assert forall j :: 0 <= j < |records| ==> r[j].jobId == records[j].jobId;
      assert IsFirstWithKey(r, RecordJobId, jobId, i);
      var k :| IsFirstWithKey(r, RecordJobId, jobId, k) && FirstWith(r, RecordJobId, jobId).value == r[k];
      FirstWithKeyUnique(r, RecordJobId, jobId, i, k);
      var k' :| IsFirstWithKey(records, RecordJobId, jobId, k') && FirstWith(records, RecordJobId, jobId).value == records[k'];
      FirstWithKeyUnique(records, RecordJobId, jobId, i, k');
  }

  /**
   * Adding a record never un-processes a document, and adding a COMPLETED record whose output
   * exists marks its document processed.
   */
  lemma AddRecordProcessed(records: seq<JobRecord>, r: JobRecord, documentName: string, fileExists: string -> bool)
    ensures AnyProcessed(records, documentName, fileExists) ==> AnyProcessed(records + [r], documentName, fileExists)
    ensures ProcessedBy(r, documentName, fileExists) ==> AnyProcessed(records + [r], documentName, fileExists)
  {
    var rs := records + [r];
    if AnyProcessed(records, documentName, fileExists) {
      var i :| 0 <= i < |records| && ProcessedBy(records[i], documentName, fileExists);
      assert rs[i] == records[i];
    }
    assert rs[|records|] == r;
  }
}
