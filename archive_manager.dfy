/** The archive job manager of the current API (api.Services.ArchiveManager): a registry
    of jobs keyed by Guid, lookup, cancellation, and the loop that writes the matching
    image files into a zip archive.

    The parallel loop is modelled as a loop over the matched records in order. The
    environment is passed in: `newGuid` lists the values Guid.NewGuid returns in turn,
    `fileExists` answers File.Exists, `fault` gives the message of the exception (if any)
    thrown while a record's file is opened and copied, and `cancelSeen` holds the numbers of
    the status reads (counted from 0: one before each record, and one more after the
    loop) by which a concurrent cancel has set the status to Canceled. The zip archive is
    the list of entry names created. */
module ApiServices {
  import opened Wrappers
  import opened Text
  import opened Paths
  import opened Calendar
  import opened Seqs
  import opened Records
  import opened ApiModels

  // ---------------------------------------------------------------- what a run does

  /** The database query of a run: the record lies in the time window and its site name,
      site number and camera position equal the requested ones (a null matches a null). */
  predicate Matches(c: ArchiveCriteria, img: Image) {
    && AtOrBefore(c.startDateTime, img.dateTime)
    && AtOrBefore(img.dateTime, c.endDateTime)
    && img.siteName == c.siteName
    && img.siteNumber == c.siteNumber
    && img.cameraPositionNumber == c.cameraPositionNumber
  }

  function Select(table: seq<Image>, c: ArchiveCriteria): seq<Image> {
    Filter(table, (img: Image) => Matches(c, img))
  }

  /** File.Exists(image.FilePath); a null path never exists. */
  predicate HasFile(img: Image, fileExists: string -> bool) {
    img.filePath.Some? && fileExists(img.filePath.value)
  }

  /** The zip entry of a record: the date folders, then the day, month, year and
      12-hour time joined by '_', then the record's extension. */
  function EntryName(img: Image): string {
    var d := img.dateTime;
    YearText(d) + "/" + MonthText(d) + "/" + DayText(d) + "/" + EntryFileName(img)
  }

  function EntryFileName(img: Image): string {
    var d := img.dateTime;
    DayText(d) + "_" + MonthText(d) + "_" + YearText(d) + "_" + TimeText(d) + GetExtension(img.filePath.GetOr(""))
  }

  /** What the loop has written after reaching some records: the entries created, one per
      record whose file exists, and the messages of the exceptions caught, one per record
      whose file exists and whose copy throws. */
  datatype Copied = Copied(entries: seq<string>, errors: seq<string>)

  function Archive(done: seq<Image>, fileExists: string -> bool, fault: Image -> Option<string>): Copied {
    if done == [] then Copied([], [])
    else
      var last := done[|done| - 1];
      var c := Archive(done[..|done| - 1], fileExists, fault);
      if !HasFile(last, fileExists) then c
      else Copied(c.entries + [EntryName(last)], c.errors + (if fault(last).Some? then [fault(last).value] else []))
  }

  /** The first status read (0..n) that sees a cancel, or n + 1 when none does. */
  function FirstCancel(cancelSeen: set<nat>, n: nat): (k: nat)
    ensures k <= n + 1
    ensures k <= n ==> k in cancelSeen
    ensures forall j :: 0 <= j < k ==> j !in cancelSeen
  {
    FirstCancelFrom(cancelSeen, 0, n)
  }

  /** The first cancel is the k before which none is seen and at which one is. */
  lemma FirstCancelIs(cancelSeen: set<nat>, n: nat, k: nat)
    requires k <= n + 1
    requires forall j :: 0 <= j < k ==> j !in cancelSeen
    requires k <= n ==> k in cancelSeen
    ensures FirstCancel(cancelSeen, n) == k
  {
  }

  function FirstCancelFrom(cancelSeen: set<nat>, i: nat, n: nat): (k: nat)
    requires i <= n + 1
    ensures i <= k <= n + 1
    ensures k <= n ==> k in cancelSeen
    ensures forall j :: i <= j < k ==> j !in cancelSeen
    decreases n + 1 - i
  {
    if i > n || i in cancelSeen then i else FirstCancelFrom(cancelSeen, i + 1, n)
  }

  /** The status a run ends with: AddError forces Failed, a cancel leaves Canceled, and
      only a run still Processing becomes Completed. */
  function FinalStatus(failed: bool, canceled: bool): ArchiveStatus {
    if failed then Failed else if canceled then Canceled else Completed
  }

  /** Path.Combine(cwd, "archives", "{id}.zip"). */
  function ArchivePath(cwd: string, id: Guid): string {
    Combine(Combine(cwd, "archives"), id.text + ".zip")
  }

  /** The outcome of a run: the request's new state and the entries of the archive. */
  datatype Run = Run(state: RequestState, entries: seq<string>)

  /** What CreateArchiveAsync does to a request in state s, as one value. */
  function CreateArchiveSpec(
    s: RequestState, cwd: string, table: seq<Image>,
    fileExists: string -> bool, fault: Image -> Option<string>, cancelSeen: set<nat>): Run
  {
    var selected := Select(table, s.criteria);
    var n := |selected|;
    var stop := FirstCancel(cancelSeen, n);
    var reached := if stop < n then stop else n;
    var copied := Archive(selected[..reached], fileExists, fault);
    var errors := copied.errors;
    Run(
      s.(status := FinalStatus(errors != [], stop <= n),
         totalImages := n,
         processedImages := s.processedImages + reached,
         filePath := Some(ArchivePath(cwd, s.id)),
         exceptionMessages := s.exceptionMessages + errors),
      copied.entries)
  }

  // ---------------------------------------------------------------- the manager

  class ArchiveManager {
    var jobs: map<Guid, ArchiveRequest>

    constructor()
      ensures jobs == map[]
    {
      jobs := map[];
    }

    /** Draws ids until one is not yet a key, and stores the request under it. */
    method RegisterJob(request: ArchiveRequest, newGuid: seq<Guid>) returns (draws: nat)
      requires exists i :: 0 <= i < |newGuid| && newGuid[i] !in jobs
      modifies this, request
      ensures 1 <= draws <= |newGuid| && request.id == newGuid[draws - 1]
      ensures request.id !in old(jobs)
      ensures forall i :: 0 <= i < draws - 1 ==> newGuid[i] in old(jobs)
      ensures jobs == old(jobs)[request.id := request]
      ensures request.Snapshot() == old(request.Snapshot()).(id := request.id)
    {
      request.id := newGuid[0];
      draws := 1;
      while request.id in jobs
        invariant 1 <= draws <= |newGuid| && request.id == newGuid[draws - 1]
        invariant forall i :: 0 <= i < draws - 1 ==> newGuid[i] in jobs
        invariant exists i :: draws - 1 <= i < |newGuid| && newGuid[i] !in jobs
        invariant request.Snapshot() == old(request.Snapshot()).(id := request.id)
        invariant jobs == old(jobs)
        decreases |newGuid| - draws
      {
        request.id := newGuid[draws];
        draws := draws + 1;
      }
      jobs := jobs[request.id := request];
    }

    /** The job registered under jobId, or KeyNotFoundException. */
    function GetJob(jobId: Guid): (r: Result<ArchiveRequest, Exception>)
      reads this
      ensures r.Ok? <==> jobId in jobs
      ensures r.Ok? ==> r.value == jobs[jobId]
      ensures r.Err? ==> r.error.KeyNotFound?
    {
      if jobId in jobs then Ok(jobs[jobId])
      else Err(KeyNotFound("No archive process found with ID: " + jobId.text))
    }

    /** Looks up the job by the request's id and sets it Canceled, whatever its status,
        Completed included; an unknown id throws KeyNotFoundException. */
    method CancelArchiveRequest(request: ArchiveRequest) returns (r: Result<ArchiveRequest, Exception>)
      modifies if request.id in jobs then {jobs[request.id]} else {}
      ensures r == GetJob(request.id)
      ensures request.id in jobs ==>
        jobs[request.id].Snapshot() == old(jobs[request.id].Snapshot()).(status := Canceled)
    {
      r := GetJob(request.id);
      if r.Ok? {
        r.value.status := Canceled;
      }
    }

    /** Registers the request, then builds its archive. */
    method ProcessArchiveRequest(
      request: ArchiveRequest, newGuid: seq<Guid>, cwd: string, table: seq<Image>,
      fileExists: string -> bool, fault: Image -> Option<string>, cancelSeen: set<nat>)
      returns (r: ArchiveRequest, entries: seq<string>)
      requires exists i :: 0 <= i < |newGuid| && newGuid[i] !in jobs
      modifies this, request
      ensures r == request && request.id !in old(jobs)
      ensures jobs == old(jobs)[request.id := request]
      ensures var run := CreateArchiveSpec(old(request.Snapshot()).(id := request.id), cwd, table, fileExists, fault, cancelSeen);
              request.Snapshot() == run.state && entries == run.entries
    {
      var _ := RegisterJob(request, newGuid);
      entries := CreateArchiveAsync(request, cwd, table, fileExists, fault, cancelSeen);
      r := request;
    }
  }

  /** The archive-building run: Processing, the query, the counts and path, the loop
      over the matched records, the caught errors, and the final status. */
  method CreateArchiveAsync(
    request: ArchiveRequest, cwd: string, table: seq<Image>,
    fileExists: string -> bool, fault: Image -> Option<string>, cancelSeen: set<nat>)
    returns (entries: seq<string>)
    modifies request
    ensures var run := CreateArchiveSpec(old(request.Snapshot()), cwd, table, fileExists, fault, cancelSeen);
            request.Snapshot() == run.state && entries == run.entries
  {
    ghost var s0 := request.Snapshot();
    request.status := Processing;
    var selected := Select(table, request.Criteria());
    request.totalImages := |selected|;
    request.filePath := Some(ArchivePath(cwd, request.id));
    assert request.Snapshot() == s0.(status := Processing, totalImages := |selected|,
                                     filePath := Some(ArchivePath(cwd, s0.id)));
    var errors, reached, canceled;
    entries, errors, reached, canceled := ArchiveRecords(request, selected, fileExists, fault, cancelSeen);
    AddErrors(request, errors);
    if request.status == Processing {
      request.status := Completed;
    }
    assert request.Snapshot() == s0.(
      status := FinalStatus(errors != [], canceled),
      totalImages := |selected|,
      processedImages := s0.processedImages + reached,
      filePath := Some(ArchivePath(cwd, s0.id)),
      exceptionMessages := s0.exceptionMessages + errors);
    RunSpec(s0, cwd, table, fileExists, fault, cancelSeen, reached, canceled, Copied(entries, errors));
  }

  /** The run as the loop ends it: reached records before the first cancel, seen or not. */
  lemma RunSpec(
    s: RequestState, cwd: string, table: seq<Image>,
    fileExists: string -> bool, fault: Image -> Option<string>, cancelSeen: set<nat>,
    reached: nat, canceled: bool, c: Copied)
    requires var n := |Select(table, s.criteria)|;
             && reached <= n && (canceled || reached == n)
             && (forall j :: 0 <= j < reached ==> j !in cancelSeen)
             && canceled == (reached in cancelSeen)
             && c == Archive(Select(table, s.criteria)[..reached], fileExists, fault)
    ensures CreateArchiveSpec(s, cwd, table, fileExists, fault, cancelSeen) ==
              Run(s.(status := FinalStatus(c.errors != [], canceled),
                     totalImages := |Select(table, s.criteria)|,
                     processedImages := s.processedImages + reached,
                     filePath := Some(ArchivePath(cwd, s.id)),
                     exceptionMessages := s.exceptionMessages + c.errors),
                  c.entries)
  {
    var n := |Select(table, s.criteria)|;
    FirstCancelIs(cancelSeen, n, if canceled then reached else n + 1);
  }

  /** The loop over the matched records: before each record, and once more after the
      last, the status is read and a cancel stops the run; otherwise ProcessedImages
      goes up by one, and when the record's file exists its entry is created and the
      message of the exception its copy throws, if any, is recorded. */
  method ArchiveRecords(
    request: ArchiveRequest, selected: seq<Image>,
    fileExists: string -> bool, fault: Image -> Option<string>, cancelSeen: set<nat>)
    returns (entries: seq<string>, errors: seq<string>, reached: nat, canceled: bool)
    requires request.status == Processing
    modifies request
    ensures reached <= |selected| && (canceled || reached == |selected|)
    ensures forall j :: 0 <= j < reached ==> j !in cancelSeen
    ensures canceled == (reached in cancelSeen)
    ensures Copied(entries, errors) == Archive(selected[..reached], fileExists, fault)
    ensures request.Snapshot() == old(request.Snapshot()).(
      status := if canceled then Canceled else Processing,
      processedImages := old(request.processedImages) + reached)
  {
    errors := [];
    entries := [];
    reached := 0;
    canceled := false;
    while reached < |selected| && !canceled
      invariant 0 <= reached <= |selected|
      invariant forall j :: 0 <= j < reached ==> j !in cancelSeen
      invariant canceled ==> reached in cancelSeen && reached < |selected|
      invariant request.Snapshot() == old(request.Snapshot()).(
        status := if canceled then Canceled else Processing,
        processedImages := old(request.processedImages) + reached)
      invariant Copied(entries, errors) == Archive(selected[..reached], fileExists, fault)
      decreases |selected| - reached, !canceled
    {
      if reached in cancelSeen {
        request.status := Canceled;
        canceled := true;
      } else {
        var image := selected[reached];
        assert selected[..reached + 1] == selected[..reached] + [image];
        request.IncrementProcessedImages();
        entries, errors := CopyRecord(selected[..reached], image, fileExists, fault, entries, errors);
        reached := reached + 1;
      }
    }
    if !canceled && reached in cancelSeen {
      request.status := Canceled;
      canceled := true;
    }
  }

  /** One record's turn after the status check: when its file exists, its entry is
      created and the message of the exception its copy throws, if any, is recorded. */
  method CopyRecord(
    ghost done: seq<Image>, image: Image, fileExists: string -> bool, fault: Image -> Option<string>,
    entries: seq<string>, errors: seq<string>)
    returns (entries': seq<string>, errors': seq<string>)
    requires Copied(entries, errors) == Archive(done, fileExists, fault)
    ensures Copied(entries', errors') == Archive(done + [image], fileExists, fault)
  {
    assert (done + [image])[..|done|] == done;
    entries', errors' := entries, errors;
    if HasFile(image, fileExists) {
      entries' := entries' + [EntryName(image)];
      if fault(image).Some? {
        errors' := errors' + [fault(image).value];
      }
    }
  }

  // ---------------------------------------------------------------- properties of a run

  /** Every entry belongs to a reached record whose file exists, and is named after it. */
  lemma {:induction false} EntriesAreExistingFiles(
    done: seq<Image>, fileExists: string -> bool, fault: Image -> Option<string>, e: string)
    requires e in Archive(done, fileExists, fault).entries
    ensures exists img :: img in done && HasFile(img, fileExists) && e == EntryName(img)
  {
    var init, last := done[..|done| - 1], done[|done| - 1];
    if e in Archive(init, fileExists, fault).entries {
      EntriesAreExistingFiles(init, fileExists, fault, e);
      var img :| img in init && HasFile(img, fileExists) && e == EntryName(img);
      assert img in done;
    } else {
      assert last in done;
    }
  }

  /** A caught error needs an existing file, so there are never more errors than entries,
      nor more entries than records reached. */
  lemma {:induction false} ErrorsAtMostEntries(done: seq<Image>, fileExists: string -> bool, fault: Image -> Option<string>)
    ensures var c := Archive(done, fileExists, fault);
            |c.errors| <= |c.entries| <= |done|
  {
    if done != [] {
      ErrorsAtMostEntries(done[..|done| - 1], fileExists, fault);
    }
  }

  /** When every reached record's file exists and copies cleanly, each gets its entry, in
      order, and no error is recorded. */
  lemma {:induction false} CleanRecordsAllArchived(done: seq<Image>, fileExists: string -> bool, fault: Image -> Option<string>)
    requires forall j :: 0 <= j < |done| ==> HasFile(done[j], fileExists) && fault(done[j]).None?
    ensures var c := Archive(done, fileExists, fault);
            && |c.entries| == |done|
            && (forall j :: 0 <= j < |done| ==> c.entries[j] == EntryName(done[j]))
            && c.errors == []
  {
    if done != [] {
      var init, last := done[..|done| - 1], done[|done| - 1];
      assert forall j :: 0 <= j < |init| ==> init[j] == done[j];
      CleanRecordsAllArchived(init, fileExists, fault);
      var prev := Archive(init, fileExists, fault).entries;
      var e := Archive(done, fileExists, fault).entries;
      assert e == prev + [EntryName(last)];
      forall j | 0 <= j < |done|
        ensures e[j] == EntryName(done[j])
      {
        if j < |init| {
          assert e[j] == prev[j];
        }
      }
    }
  }

  /** Records whose files are missing add neither an entry nor an error. */
  lemma {:induction false} MissingFilesAddNothing(done: seq<Image>, fileExists: string -> bool, fault: Image -> Option<string>)
    requires forall j :: 0 <= j < |done| ==> !HasFile(done[j], fileExists)
    ensures Archive(done, fileExists, fault) == Copied([], [])
  {
    if done != [] {
      MissingFilesAddNothing(done[..|done| - 1], fileExists, fault);
    }
  }

  /** A run from a fresh request never counts more processed records than it matched,
      ends Completed exactly when no record threw and no cancel was seen, and ends Failed
      exactly when some record threw. */
  lemma RunOutcome(
    s: RequestState, cwd: string, table: seq<Image>,
    fileExists: string -> bool, fault: Image -> Option<string>, cancelSeen: set<nat>)
    requires s.processedImages == 0
    ensures var run := CreateArchiveSpec(s, cwd, table, fileExists, fault, cancelSeen);
            var n := |Select(table, s.criteria)|;
            && 0 <= run.state.processedImages <= run.state.totalImages == n
            && (run.state.status == Completed <==>
                  FirstCancel(cancelSeen, n) > n && run.state.exceptionMessages == s.exceptionMessages)
            && (run.state.status == Failed <==> |run.state.exceptionMessages| > |s.exceptionMessages|)
            && |run.state.exceptionMessages| - |s.exceptionMessages| <= |run.entries|
  {
    var selected := Select(table, s.criteria);
    var n := |selected|;
    var stop := FirstCancel(cancelSeen, n);
    var reached := if stop < n then stop else n;
    ErrorsAtMostEntries(selected[..reached], fileExists, fault);
  }

  /** Every record is matched by the query of the request it was selected for. */
  lemma SelectedRecordsMatch(table: seq<Image>, c: ArchiveCriteria, img: Image)
    ensures img in Select(table, c) <==> img in table && Matches(c, img)
  {
    FilterMembership(table, (img: Image) => Matches(c, img), img);
  }

  /** A name made of folders and a separator-free last part has that part as its file name. */
  lemma {:induction false} FileNameOfAppend(dir: string, name: string)
    requires dir != [] && IsSeparator(dir[|dir| - 1])
    requires NoSeparators(name)
    ensures GetFileName(dir + name) == name
  {
    if name == [] {
      assert dir + name == dir;
    } else {
      var p := dir + name;
      assert p[..|p| - 1] == dir + name[..|name| - 1];
      FileNameOfAppend(dir, name[..|name| - 1]);
    }
  }

  /** Entries are filed under year/MMM/dd/ and keep the extension of the record's file. */
  lemma EntryInDateFolder(img: Image)
    ensures var d := img.dateTime;
            var dir := YearText(d) + "/" + MonthText(d) + "/" + DayText(d) + "/";
            && StartsWith(EntryName(img), dir)
            && GetFileName(EntryName(img)) == EntryFileName(img)
            && EndsWith(EntryName(img), GetExtension(img.filePath.GetOr("")))
  {
    var d := img.dateTime;
    var dir := YearText(d) + "/" + MonthText(d) + "/" + DayText(d) + "/";
    var f := EntryFileName(img);
    assert EntryName(img) == dir + f;
    assert (dir + f)[..|dir|] == dir;
    var ext := GetExtension(img.filePath.GetOr(""));
    var head := DayText(d) + "_" + MonthText(d) + "_" + YearText(d) + "_" + TimeText(d);
    assert f == head + ext;
    NoSeparatorsInEntryFileName(img, head, ext);
    FileNameOfAppend(dir, f);
  }

  lemma NoSeparatorsInEntryFileName(img: Image, head: string, ext: string)
    requires var d := img.dateTime;
             head == DayText(d) + "_" + MonthText(d) + "_" + YearText(d) + "_" + TimeText(d)
    requires ext == GetExtension(img.filePath.GetOr(""))
    ensures NoSeparators(head + ext)
  {
    var d := img.dateTime;
    var day, month, year, time := DayText(d), MonthText(d), YearText(d), TimeText(d);
    DigitsHaveNoSeparators(day);
    DigitsHaveNoSeparators(year);
    MonthHasNoSeparators(d);
    TimeHasNoSeparators(d);
    NoSeparatorsAppend(day, "_");
    NoSeparatorsAppend(day + "_", month);
    NoSeparatorsAppend(day + "_" + month, "_");
    NoSeparatorsAppend(day + "_" + month + "_", year);
    NoSeparatorsAppend(day + "_" + month + "_" + year, "_");
    NoSeparatorsAppend(day + "_" + month + "_" + year + "_", time);
    ExtensionHasNoSeparators(img.filePath.GetOr(""));
    NoSeparatorsAppend(head, ext);
  }

  lemma DigitsHaveNoSeparators(s: string)
    requires AllDigits(s)
    ensures NoSeparators(s)
  {
    assert forall i :: 0 <= i < |s| ==> IsDigit(s[i]);
  }

  lemma MonthHasNoSeparators(d: DateTime)
    ensures NoSeparators(MonthText(d))
  {
    assert forall m :: 0 <= m < 12 ==> NoSeparators(MonthAbbreviations[m]);
  }

  lemma TimeHasNoSeparators(d: DateTime)
    ensures NoSeparators(TimeText(d))
  {
    var h, m := TwoDigits(Hour12(d)), TwoDigits(d.minute);
    var ampm := if d.hour < 12 then "AM" else "PM";
    DigitsHaveNoSeparators(h);
    DigitsHaveNoSeparators(m);
    NoSeparatorsAppend(h, ".");
    NoSeparatorsAppend(h + ".", m);
    NoSeparatorsAppend(h + "." + m, ampm);
  }

  lemma ExtensionHasNoSeparators(p: string)
    ensures NoSeparators(GetExtension(p))
  {
    var name := GetFileName(p);
    FileNameShape(p);
    var k := LastDot(name);
    if !(k < 0 || k == |name| - 1) {
      NoSeparatorsFrom(name, k);
    }
  }

}
