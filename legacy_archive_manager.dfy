/** The archive job manager of the older API generation (ImageProjectBackend.Services.
    ArchiveManager): a registry of jobs keyed by Guid, a lookup, the download-path decision,
    and the run that writes the files of the records in a date window into a zip archive.

    As in the current manager, the environment is passed in: `newGuid` lists the values
    Guid.NewGuid returns in turn, `fileExists` answers File.Exists, `fault` gives the message
    of the exception (if any) thrown while a record's entry is created and its file copied,
    and `processFault` the message of an exception that escapes the run itself (the
    database query or the creation of the zip file). The background task is run to its end
    before StartArchive returns. */
module LegacyServices {
  import opened Wrappers
  import opened Text
  import opened Paths
  import opened Calendar
  import opened Seqs
  import opened Records

  // ---------------------------------------------------------------- the job record

  /** Every field of an older-generation job at one moment. */
  datatype LegacyRequestState = LegacyRequestState(
    jobId: Guid,
    startDate: DateTime,
    endDate: DateTime,
    status: ArchiveStatus,
    errors: seq<string>)

  /** The job record of the older generation: the requested window, the id it is stored
      under, its status and its error messages. */
  class LegacyArchiveRequest {
    var jobId: Guid
    var startDate: DateTime
    var endDate: DateTime
    var status: ArchiveStatus
    var errors: seq<string>

    function Snapshot(): LegacyRequestState
      reads this
    {
      LegacyRequestState(jobId, startDate, endDate, status, errors)
    }

    /** A request as the JSON binder creates it: the empty id, status Unknown, no errors. */
    constructor(startDate: DateTime, endDate: DateTime)
      ensures Snapshot() == LegacyRequestState(EmptyGuid, startDate, endDate, Unknown, [])
    {
      jobId := EmptyGuid;
      this.startDate := startDate;
      this.endDate := endDate;
      status := Unknown;
      errors := [];
    }

    /** Appends one message after the existing ones; the status is left alone. */
    method AddError(message: string)
      modifies this
      ensures Snapshot() == old(Snapshot()).(errors := old(errors) + [message])
    {
      errors := errors + [message];
    }
  }

  // ---------------------------------------------------------------- what a run does

  /** The database query of a run: StartDate <= DateTime <= EndDate. */
  predicate InWindow(start: DateTime, end: DateTime, img: LegacyImage) {
    AtOrBefore(start, img.dateTime) && AtOrBefore(img.dateTime, end)
  }

  function SelectWindow(table: seq<LegacyImage>, start: DateTime, end: DateTime): seq<LegacyImage> {
    Filter(table, (img: LegacyImage) => InWindow(start, end, img))
  }

  /** File.Exists(image.FilePath); a null path never exists. */
  predicate LegacyHasFile(img: LegacyImage, fileExists: string -> bool) {
    img.filePath.Some? && fileExists(img.filePath.value)
  }

  /** The zip entry of a record: the date folders, then day, month, year and 12-hour time
      separated by spaces, a '.', and then Path.GetExtension of the file, which brings its
      own dot. */
  function LegacyEntryName(img: LegacyImage): string {
    var d := img.dateTime;
    YearText(d) + "/" + MonthText(d) + "/" + DayText(d) + "/"
      + DayText(d) + " " + MonthText(d) + " " + YearText(d) + " " + TimeText(d)
      + "." + GetExtension(img.filePath.GetOr(""))
  }

  /** The entries created and the messages caught for the records reached. */
  datatype LegacyCopied = LegacyCopied(entries: seq<string>, errors: seq<string>)

  function LegacyArchive(done: seq<LegacyImage>, fileExists: string -> bool, fault: LegacyImage -> Option<string>): LegacyCopied {
    if done == [] then LegacyCopied([], [])
    else
      var last := done[|done| - 1];
      var c := LegacyArchive(done[..|done| - 1], fileExists, fault);
      if !LegacyHasFile(last, fileExists) then c
      else LegacyCopied(c.entries + [LegacyEntryName(last)], c.errors + (if fault(last).Some? then [fault(last).value] else []))
  }

  /** Path.Combine(cwd, "Archives", "{jobId}.zip"). */
  function LegacyArchivePath(cwd: string, jobId: Guid): string {
    Combine(Combine(cwd, "Archives"), jobId.text + ".zip")
  }

  /** The outcome of a run: the job's new state and the entries of the archive. */
  datatype LegacyRun = LegacyRun(state: LegacyRequestState, entries: seq<string>)

  /** What ProcessArchiveRequest does to a job in state s. An exception escaping the run
      leaves the job Processing; otherwise every caught message is appended and the job
      is set Completed, whatever was caught. */
  function ProcessSpec(
    s: LegacyRequestState, table: seq<LegacyImage>,
    fileExists: string -> bool, fault: LegacyImage -> Option<string>, processFault: Option<string>): LegacyRun
  {
    if processFault.Some? then LegacyRun(s.(status := Processing), [])
    else
      var copied := LegacyArchive(SelectWindow(table, s.startDate, s.endDate), fileExists, fault);
      LegacyRun(s.(status := Completed, errors := s.errors + copied.errors), copied.entries)
  }

  /** What StartArchive does to a request in state s once it is stored under jobId: the
      run, and when an exception escapes it, Failed and one "Processing failed: " message. */
  function StartSpec(
    s: LegacyRequestState, jobId: Guid, table: seq<LegacyImage>,
    fileExists: string -> bool, fault: LegacyImage -> Option<string>, processFault: Option<string>): LegacyRun
  {
    var run := ProcessSpec(s.(jobId := jobId), table, fileExists, fault, processFault);
    if processFault.Some? then
      LegacyRun(run.state.(status := Failed, errors := run.state.errors + ["Processing failed: " + processFault.value]), run.entries)
    else run
  }

  // ---------------------------------------------------------------- the manager

  class LegacyArchiveManager {
    var jobs: map<Guid, LegacyArchiveRequest>

    constructor()
      ensures jobs == map[]
    {
      jobs := map[];
    }

    /** Draws ids until one is not yet a key, stores the request under it, sets its JobId,
        runs the job, and returns the id. */
    method StartArchive(
      request: LegacyArchiveRequest, newGuid: seq<Guid>, table: seq<LegacyImage>,
      fileExists: string -> bool, fault: LegacyImage -> Option<string>, processFault: Option<string>)
      returns (jobId: Guid, entries: seq<string>)
      requires exists i :: 0 <= i < |newGuid| && newGuid[i] !in jobs
      modifies this, request
      ensures jobId in newGuid && jobId !in old(jobs)
      ensures jobs == old(jobs)[jobId := request]
      ensures var run := StartSpec(old(request.Snapshot()), jobId, table, fileExists, fault, processFault);
              request.Snapshot() == run.state && entries == run.entries
    {
      jobId := newGuid[0];
      var draws := 1;
      while jobId in jobs
        invariant 1 <= draws <= |newGuid| && jobId == newGuid[draws - 1]
        invariant exists i :: draws - 1 <= i < |newGuid| && newGuid[i] !in jobs
        invariant jobs == old(jobs)
        decreases |newGuid| - draws
      {
        jobId := newGuid[draws];
        draws := draws + 1;
      }
      jobs := jobs[jobId := request];
      request.jobId := jobId;
      var thrown;
      entries, thrown := ProcessArchiveRequest(jobId, table, fileExists, fault, processFault);
      if thrown.Some? {
        request.status := Failed;
        request.AddError("Processing failed: " + thrown.value);
      }
    }

    /** The job registered under jobId, or KeyNotFoundException. */
    function GetJob(jobId: Guid): (r: Result<LegacyArchiveRequest, Exception>)
      reads this
      ensures r.Ok? <==> jobId in jobs
      ensures r.Ok? ==> r.value == jobs[jobId]
      ensures r.Err? ==> r.error.KeyNotFound?
    {
      if jobId in jobs then Ok(jobs[jobId])
      else Err(KeyNotFound("No archive process found with ID: " + jobId.text))
    }

    /** The archive's path, checked in a fixed order: an unknown id, then a job that has
        not completed, then a missing file. */
    function GetFilePath(jobId: Guid, cwd: string, fileExists: string -> bool): (r: Result<string, Exception>)
      reads this, if jobId in jobs then {jobs[jobId]} else {}
      ensures jobId !in jobs ==> r.Err? && r.error.KeyNotFound?
      ensures jobId in jobs && jobs[jobId].status != Completed ==> r.Err? && r.error.InvalidOperation?
      ensures jobId in jobs && jobs[jobId].status == Completed ==>
                (r.Ok? <==> fileExists(LegacyArchivePath(cwd, jobId)))
                && (r.Ok? ==> r.value == LegacyArchivePath(cwd, jobId))
                && (r.Err? ==> r.error.FileNotFound?)
    {
      if jobId !in jobs then Err(KeyNotFound("No archive process found with ID: " + jobId.text))
      else if jobs[jobId].status != Completed then Err(InvalidOperation("The archiving process has not completed."))
      else
        var path := LegacyArchivePath(cwd, jobId);
        if fileExists(path) then Ok(path) else Err(FileNotFound("The file does not exist."))
    }

    /** The run of the job under jobId: Processing, the query, the loop over the records,
        the caught messages appended, and Completed. An exception escaping the run is
        returned in `thrown`. */
    method ProcessArchiveRequest(
      jobId: Guid, table: seq<LegacyImage>,
      fileExists: string -> bool, fault: LegacyImage -> Option<string>, processFault: Option<string>)
      returns (entries: seq<string>, thrown: Option<string>)
      requires jobId in jobs
      modifies jobs[jobId]
      ensures thrown == processFault
      ensures var run := ProcessSpec(old(jobs[jobId].Snapshot()), table, fileExists, fault, processFault);
              jobs[jobId].Snapshot() == run.state && entries == run.entries
    {
      var request := jobs[jobId];
      request.status := Processing;
      if processFault.Some? {
        return [], processFault;
      }
      var images := SelectWindow(table, request.startDate, request.endDate);
      var errors;
      entries, errors := ArchiveImages(images, fileExists, fault);
      var j := 0;
      while j < |errors|
        invariant 0 <= j <= |errors|
        invariant request.Snapshot() == old(request.Snapshot()).(status := Processing, errors := old(request.errors) + errors[..j])
      {
        request.AddError(errors[j]);
        assert errors[..j + 1] == errors[..j] + [errors[j]];
        j := j + 1;
      }
      assert errors[..j] == errors;
      request.status := Completed;
      thrown := None;
    }
  }

  /** The loop over the selected records: an entry for each record whose file exists, and
      the message of the exception when creating the entry or copying the file throws. */
  method ArchiveImages(images: seq<LegacyImage>, fileExists: string -> bool, fault: LegacyImage -> Option<string>)
    returns (entries: seq<string>, errors: seq<string>)
    ensures LegacyCopied(entries, errors) == LegacyArchive(images, fileExists, fault)
  {
    entries, errors := [], [];
    var i := 0;
    while i < |images|
      invariant 0 <= i <= |images|
      invariant LegacyCopied(entries, errors) == LegacyArchive(images[..i], fileExists, fault)
    {
      var image := images[i];
      assert images[..i + 1] == images[..i] + [image];
      if LegacyHasFile(image, fileExists) {
        entries := entries + [LegacyEntryName(image)];
        if fault(image).Some? {
          errors := errors + [fault(image).value];
        }
      }
      i := i + 1;
    }
    assert images[..i] == images;
  }

  // ---------------------------------------------------------------- properties of a run

  /** A record is archived only if it lies in the requested window. */
  lemma SelectedInWindow(table: seq<LegacyImage>, start: DateTime, end: DateTime, img: LegacyImage)
    ensures img in SelectWindow(table, start, end) <==> img in table && InWindow(start, end, img)
  {
    FilterMembership(table, (img: LegacyImage) => InWindow(start, end, img), img);
  }

  /** Every entry belongs to a record whose file exists, and is named after it. */
  lemma {:induction false} LegacyEntriesAreExistingFiles(
    done: seq<LegacyImage>, fileExists: string -> bool, fault: LegacyImage -> Option<string>, e: string)
    requires e in LegacyArchive(done, fileExists, fault).entries
    ensures exists img :: img in done && LegacyHasFile(img, fileExists) && e == LegacyEntryName(img)
  {
    var init, last := done[..|done| - 1], done[|done| - 1];
    if e in LegacyArchive(init, fileExists, fault).entries {
      LegacyEntriesAreExistingFiles(init, fileExists, fault, e);
      var img :| img in init && LegacyHasFile(img, fileExists) && e == LegacyEntryName(img);
      assert img in done;
    } else {
      assert last in done;
    }
  }

  /** There are never more caught messages than entries, nor more entries than records. */
  lemma {:induction false} LegacyErrorsAtMostEntries(done: seq<LegacyImage>, fileExists: string -> bool, fault: LegacyImage -> Option<string>)
    ensures var c := LegacyArchive(done, fileExists, fault);
            |c.errors| <= |c.entries| <= |done|
  {
    if done != [] {
      LegacyErrorsAtMostEntries(done[..|done| - 1], fileExists, fault);
    }
  }

  /** Unless the run itself throws, the job ends Completed even when copies threw: the final
      status overwrites whatever came before, and it carries one new message per copy that
      threw, never more than there are entries. A run that throws ends Failed with exactly
      one new message. */
  lemma StartOutcome(
    s: LegacyRequestState, jobId: Guid, table: seq<LegacyImage>,
    fileExists: string -> bool, fault: LegacyImage -> Option<string>, processFault: Option<string>)
    ensures var run := StartSpec(s, jobId, table, fileExists, fault, processFault);
            && run.state.jobId == jobId
            && (run.state.status == Completed <==> processFault.None?)
            && (run.state.status == Failed <==> processFault.Some?)
            && run.state.errors[..|s.errors|] == s.errors
            && (processFault.Some? ==> |run.state.errors| == |s.errors| + 1 && run.entries == [])
            && (processFault.None? ==> |run.state.errors| - |s.errors| <= |run.entries|)
  {
    var copied := LegacyArchive(SelectWindow(table, s.startDate, s.endDate), fileExists, fault);
    LegacyErrorsAtMostEntries(SelectWindow(table, s.startDate, s.endDate), fileExists, fault);
    var run := StartSpec(s, jobId, table, fileExists, fault, processFault);
    if processFault.Some? {
      assert run.state.errors == s.errors + ["Processing failed: " + processFault.value];
    } else {
      assert run.state.errors == s.errors + copied.errors;
    }
  }

  /** An entry name ends in the time, a '.', and the file's extension, which itself starts
      with '.': a file with an extension gets two dots in a row. */
  lemma LegacyEntryDoubleDot(img: LegacyImage)
    requires GetExtension(img.filePath.GetOr("")) != []
    ensures var ext := GetExtension(img.filePath.GetOr(""));
            EndsWith(LegacyEntryName(img), "." + ext) && ext[0] == '.'
  {
    var ext := GetExtension(img.filePath.GetOr(""));
    NameExtensionShape(GetFileName(img.filePath.GetOr("")));
    var d := img.dateTime;
    var head := YearText(d) + "/" + MonthText(d) + "/" + DayText(d) + "/"
      + DayText(d) + " " + MonthText(d) + " " + YearText(d) + " " + TimeText(d);
    assert LegacyEntryName(img) == head + ("." + ext);
  }
}
