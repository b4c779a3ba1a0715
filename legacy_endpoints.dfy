/** The HTTP handlers of the older API generation (src/api/Program.cs) over the older
    archive manager and the older Images table: archive request, status and download, the
    filter-string search, and the image download by id. DateTime.TryParse, which depends
    on the culture, is the parameter `parseDate`. */
module LegacyEndpoints {
  import opened Wrappers
  import opened Text
  import opened Calendar
  import opened Seqs
  import opened Records
  import opened Http
  import opened Mime
  import opened LegacyServices

  // ---------------------------------------------------------------- archive endpoints

  /** POST /api/archive/request. The body is dereferenced by a log line before it is
      checked for null, so a missing body ends in the catch and a bare 500, never in the
      BadRequest branch. A job stored under the empty Guid is a 500 with a message;
      otherwise the answer is 202 with the job's location and the job. */
  method RequestArchive(
    manager: LegacyArchiveManager, body: Option<LegacyArchiveRequest>, newGuid: seq<Guid>,
    table: seq<LegacyImage>, fileExists: string -> bool, fault: LegacyImage -> Option<string>,
    processFault: Option<string>)
    returns (r: Response<LegacyArchiveRequest>)
    requires body.Some? ==> exists i :: 0 <= i < |newGuid| && newGuid[i] !in manager.jobs
    modifies manager, if body.Some? then {body.value} else {}
    ensures body.None? ==> r == Problem(None) && manager.jobs == old(manager.jobs)
    ensures body.Some? ==>
      var request := body.value;
      && request.jobId !in old(manager.jobs)
      && manager.jobs == old(manager.jobs)[request.jobId := request]
      && request.Snapshot() == StartSpec(old(request.Snapshot()), request.jobId, table, fileExists, fault, processFault).state
      && (request.jobId == EmptyGuid ==> r == Problem(Some("Error creating new archive job.")))
      && (request.jobId != EmptyGuid ==> r == Accepted("/api/archive/request/" + request.jobId.text, request))
  {
    if body.None? {
      return Problem(None);
    }
    var jobId, _ := manager.StartArchive(body.value, newGuid, table, fileExists, fault, processFault);
    if jobId == EmptyGuid {
      return Problem(Some("Error creating new archive job."));
    }
    var job := manager.GetJob(jobId);
    r := if job.Ok? then Accepted("/api/archive/request/" + jobId.text, job.value) else Problem(None);
  }

  /** GET /api/archive/status/{jobId}: the job, or a 500 carrying the lookup's message. */
  function StatusResponse(manager: LegacyArchiveManager, jobId: Guid): (r: Response<LegacyArchiveRequest>)
    reads manager
    ensures r.Ok? <==> jobId in manager.jobs
    ensures r.Ok? ==> r.body == manager.jobs[jobId]
    ensures r.Problem? <==> jobId !in manager.jobs
    ensures r.Problem? ==> r.detail == Some("No archive process found with ID: " + jobId.text)
  {
    match manager.GetJob(jobId)
    case Ok(job) => Response.Ok(job)
    case Err(e) => Problem(Some(e.Message()))
  }

  /** GET /api/archive/download/{jobId}: the archive as "{jobId}.zip", or a 500 carrying
      the message of whichever check of GetFilePath failed. */
  function DownloadResponse(manager: LegacyArchiveManager, jobId: Guid, cwd: string, fileExists: string -> bool): (r: Response<LegacyArchiveRequest>)
    reads manager, if jobId in manager.jobs then {manager.jobs[jobId]} else {}
    ensures r.FileBody? <==>
      jobId in manager.jobs && manager.jobs[jobId].status == Completed && fileExists(LegacyArchivePath(cwd, jobId))
    ensures r.FileBody? ==>
      r == FileBody(LegacyArchivePath(cwd, jobId), "application/zip", Some(jobId.text + ".zip"))
    ensures !r.FileBody? ==> r.Problem? && r.detail.Some?
    ensures jobId !in manager.jobs ==> r == Problem(Some("No archive process found with ID: " + jobId.text))
    ensures jobId in manager.jobs && manager.jobs[jobId].status != Completed ==>
      r == Problem(Some("The archiving process has not completed."))
  {
    match manager.GetFilePath(jobId, cwd, fileExists)
    case Ok(path) => FileBody(path, "application/zip", Some(jobId.text + ".zip"))
    case Err(e) => Problem(Some(e.Message()))
  }

  // ---------------------------------------------------------------- filter-string search

  /** The number of rows matched before paging, and the page. */
  datatype LegacyPage = LegacyPage(totalCount: int, images: seq<LegacyImage>)

  /** The Where of the search: inside the window and at the named site. */
  predicate FilterMatches(start: DateTime, end: DateTime, site: string, img: LegacyImage) {
    AtOrBefore(start, img.dateTime) && AtOrBefore(img.dateTime, end) && img.site == Some(site)
  }

  predicate ById(a: LegacyImage, b: LegacyImage) {
    a.id <= b.id
  }

  /** The fields of the filter "start,end,pageIndex,pageSize,site", when each one parses. */
  datatype FilterFields = FilterFields(start: DateTime, end: DateTime, pageIndex: int, pageSize: int, site: string)

  /** The page of the rows matching the fields, ordered by Id. */
  function FilterPage(table: seq<LegacyImage>, f: FilterFields): LegacyPage {
    var matched := Filter(table, (img: LegacyImage) => FilterMatches(f.start, f.end, f.site, img));
    var ordered := SortBy(matched, ById);
    LegacyPage(|ordered|, Page(ordered, MulInt32(f.pageIndex, f.pageSize), f.pageSize))
  }

  /** GET /api/images/paginated?filter=...: the filter is split on ','; the four leading
      fields are parsed left to right, each only after the previous one parsed, and the
      first that does not parse is a BadRequest; a field that is missing when it is reached
      throws IndexOutOfRangeException, and a page the database rejects throws its SQL
      error, and the catch turns either into a 500 with the exception's message. */
  function PaginatedResponse(filter: string, table: seq<LegacyImage>, parseDate: string -> Option<DateTime>): (r: Response<LegacyPage>)
    ensures var p := Split(filter, ',');
            var parsed := |p| >= 5 && parseDate(p[0]).Some? && parseDate(p[1]).Some?
                          && TryParseInt(p[2]).Some? && TryParseInt(p[3]).Some?;
            && (r.Ok? <==> parsed && !OffsetFetchRejected(MulInt32(TryParseInt(p[2]).value, TryParseInt(p[3]).value),
                                                          TryParseInt(p[3]).value))
            && (parsed && OffsetFetchRejected(MulInt32(TryParseInt(p[2]).value, TryParseInt(p[3]).value),
                                              TryParseInt(p[3]).value) ==>
                  r.Problem? && r.detail.Some?
                  && r.detail.value == OffsetFetchError(MulInt32(TryParseInt(p[2]).value, TryParseInt(p[3]).value),
                                                        TryParseInt(p[3]).value).Message())
    ensures var p := Split(filter, ',');
            r.Ok? ==> r.body == FilterPage(table, FilterFields(parseDate(p[0]).value, parseDate(p[1]).value,
                                             TryParseInt(p[2]).value, TryParseInt(p[3]).value, p[4]))
    ensures r.Ok? || r == BadRequest || r == Problem(Some(IndexOutOfRange.Message()))
            || r == Problem(Some(NegativeOffsetMessage)) || r == Problem(Some(FetchCountMessage))
  {
    var p := Split(filter, ',');
    if parseDate(p[0]).None? then BadRequest
    else if |p| < 2 then Problem(Some(IndexOutOfRange.Message()))
    else if parseDate(p[1]).None? then BadRequest
    else if |p| < 3 then Problem(Some(IndexOutOfRange.Message()))
    else if TryParseInt(p[2]).None? then BadRequest
    else if |p| < 4 then Problem(Some(IndexOutOfRange.Message()))
    else if TryParseInt(p[3]).None? then BadRequest
    else if |p| < 5 then Problem(Some(IndexOutOfRange.Message()))
    else
      var pageIndex, pageSize := TryParseInt(p[2]).value, TryParseInt(p[3]).value;
      var offset := MulInt32(pageIndex, pageSize);
      if OffsetFetchRejected(offset, pageSize) then Problem(Some(OffsetFetchError(offset, pageSize).Message()))
      else Response.Ok(FilterPage(table, FilterFields(parseDate(p[0]).value, parseDate(p[1]).value,
                                                      pageIndex, pageSize, p[4])))
  }

  /** A first field that is not a date is a BadRequest, whatever follows (the filter
      "invalid,filter" among them). */
  lemma UnparsableStartIsBadRequest(filter: string, table: seq<LegacyImage>, parseDate: string -> Option<DateTime>)
    requires parseDate(Split(filter, ',')[0]).None?
    ensures PaginatedResponse(filter, table, parseDate) == BadRequest
  {
  }

  /** The filter "invalid,filter" is a BadRequest when "invalid" is not a date. */
  lemma InvalidFilterIsBadRequest(table: seq<LegacyImage>, parseDate: string -> Option<DateTime>)
    requires parseDate("invalid").None?
    ensures PaginatedResponse("invalid,filter", table, parseDate) == BadRequest
  {
    assert "invalid,filter" == "invalid" + [','] + "filter";
    SplitFirstPiece("invalid", ',', "filter");
  }

  /** A filter whose leading fields all parse but that has fewer than five fields fails on
      the site field: a 500, never a BadRequest. */
  lemma MissingSiteIsProblem(filter: string, table: seq<LegacyImage>, parseDate: string -> Option<DateTime>)
    requires var p := Split(filter, ',');
             |p| == 4 && parseDate(p[0]).Some? && parseDate(p[1]).Some? && TryParseInt(p[2]).Some? && TryParseInt(p[3]).Some?
    ensures PaginatedResponse(filter, table, parseDate) == Problem(Some(IndexOutOfRange.Message()))
  {
  }

  lemma ByIdIsTotal()
    ensures TotalPreorder(ById)
  {
  }

  /** A page holds only rows inside the window at the named site, ordered by Id, and never
      more than pageSize of them nor more than the total count. */
  lemma FilterPageMatches(table: seq<LegacyImage>, f: FilterFields)
    ensures var page := FilterPage(table, f);
            && (forall img :: img in page.images ==> img in table && FilterMatches(f.start, f.end, f.site, img))
            && SortedBy(page.images, ById)
            && |page.images| <= page.totalCount
            && (f.pageSize >= 0 ==> |page.images| <= f.pageSize)
  {
    var keep := (img: LegacyImage) => FilterMatches(f.start, f.end, f.site, img);
    var matched := Filter(table, keep);
    var ordered := SortBy(matched, ById);
    var offset := MulInt32(f.pageIndex, f.pageSize);
    ByIdIsTotal();
    SortBySorted(matched, ById);
    PageIsSlice(ordered, offset, f.pageSize);
    PageOfSorted(ordered, offset, f.pageSize, ById);
    forall img | img in Page(ordered, offset, f.pageSize)
      ensures img in table && FilterMatches(f.start, f.end, f.site, img)
    {
      assert img in multiset(ordered);
      FilterMembership(table, keep, img);
    }
  }

  // ---------------------------------------------------------------- image by id

  /** GET /api/images/{id}: the row with that key, opened and sent with the content type of
      its extension; no row is NotFound, and a null path or a missing file makes the open
      throw, which the handler turns into a 500 carrying the message. */
  function ImageResponse(table: seq<LegacyImage>, id: int, fileExists: string -> bool): (r: Response<LegacyImage>)
    ensures r.NotFound? <==> forall i :: 0 <= i < |table| ==> table[i].id != id
    ensures r.NotFound? ==> r.found == None
    ensures r.FileBody? ==> exists i :: 0 <= i < |table| && table[i].id == id && table[i].filePath == Some(r.path)
    ensures r.FileBody? ==> fileExists(r.path) && r.contentType == MimeTypeOfPath(r.path) && r.downloadName == None
    ensures r.NotFound? || r.FileBody? || (r.Problem? && r.detail.Some?)
  {
    match FindFirst(table, (img: LegacyImage) => img.id == id)
    case None => NotFound(None)
    case Some(img) =>
      if img.filePath.None? then Problem(Some(ArgumentNull.Message()))
      else if !fileExists(img.filePath.value) then Problem(Some(FileNotFound("Could not find file '" + img.filePath.value + "'.").Message()))
      else FileBody(img.filePath.value, MimeTypeOfPath(img.filePath.value), None)
  }
}
