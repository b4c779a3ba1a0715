/** The HTTP handlers of the current API (api.EndpointsMap) that decide an outcome: the
    archive request, status, download and cancel endpoints over the archive manager, the
    paginated image search, the image download by id, and the query history. The
    database tables are sequences of rows; File.Exists is `fileExists`; the clock reading
    DateTime.Now is the text `now` it prints as. */
module Endpoints {
  import opened Wrappers
  import opened Text
  import opened Paths
  import opened Calendar
  import opened Seqs
  import opened Records
  import opened Http
  import opened Mime
  import opened ApiModels
  import opened ApiServices

  // ---------------------------------------------------------------- archive endpoints

  /** POST /api/archive/request: a missing body is BadRequest; otherwise the request is
      registered and run and the answer is 202 with the job's location. */
  method RequestArchive(
    manager: ArchiveManager, body: Option<ArchiveRequest>, newGuid: seq<Guid>, cwd: string,
    table: seq<Image>, fileExists: string -> bool, fault: Image -> Option<string>, cancelSeen: set<nat>)
    returns (r: Response<ArchiveRequest>)
    requires body.Some? ==> exists i :: 0 <= i < |newGuid| && newGuid[i] !in manager.jobs
    modifies manager, if body.Some? then {body.value} else {}
    ensures body.None? ==> r == BadRequest && manager.jobs == old(manager.jobs)
    ensures body.Some? ==>
      var request := body.value;
      && r == Accepted("/api/archive/request/" + request.id.text, request)
      && request.id !in old(manager.jobs)
      && manager.jobs == old(manager.jobs)[request.id := request]
      && request.Snapshot() == CreateArchiveSpec(old(request.Snapshot()).(id := request.id), cwd, table, fileExists, fault, cancelSeen).state
  {
    if body.None? {
      return BadRequest;
    }
    var request, _ := manager.ProcessArchiveRequest(body.value, newGuid, cwd, table, fileExists, fault, cancelSeen);
    r := Accepted("/api/archive/request/" + request.id.text, request);
  }

  /** GET /api/archive/status/{jobId}: the job, or a 500 carrying the lookup's message. */
  function StatusResponse(manager: ArchiveManager, jobId: Guid): (r: Response<ArchiveRequest>)
    reads manager
    ensures r.Ok? <==> jobId in manager.jobs
    ensures r.Ok? ==> r.body == manager.jobs[jobId]
    ensures r.Problem? <==> jobId !in manager.jobs
    ensures r.Problem? ==> r.detail == Some("No archive process found with ID: " + jobId.text)
  {
    match manager.GetJob(jobId)
    case Ok(job) => Response.Ok(job)
    case Err(e) => Problem(Some(e.Message()))
  }

  /** `{value}` interpolation of a nullable value: a null prints as nothing. */
  function OptionText(s: Option<string>): string {
    s.GetOr("")
  }

  function OptionIntText(n: Option<int>): string {
    if n.Some? then IntToString(n.value) else ""
  }

  /** The name the archive is downloaded under. */
  function DownloadName(siteName: Option<string>, siteNumber: Option<int>, now: string): string {
    OptionText(siteName) + "_" + OptionIntText(siteNumber) + "_archive_" + now + ".zip"
  }

  /** GET /api/archive/download/{jobId}. */
  function DownloadResponse(manager: ArchiveManager, jobId: Guid, fileExists: string -> bool, now: string): (r: Response<ArchiveRequest>)
    reads manager, if jobId in manager.jobs then {manager.jobs[jobId]} else {}
  {
    match manager.GetJob(jobId)
    case Err(_) => Problem(None)
    case Ok(request) =>
      if IsNullOrEmpty(request.filePath) || !fileExists(request.filePath.value) then NotFound(Some(request))
      else if request.status != Completed then Conflict(request)
      else FileBody(request.filePath.value, "application/zip", Some(DownloadName(request.siteName, request.siteNumber, now)))
  }

  predicate IsNullOrEmpty(s: Option<string>) {
    s.None? || s.value == []
  }

  /** The download decision in full: an unknown id is a 500; a job without an archive file
      on disk is NotFound whatever its status, so an unfinished job is NotFound rather than
      Conflict; a file whose job has not completed is Conflict; only a completed job whose
      file exists is streamed, as application/zip. */
  lemma DownloadOutcomes(manager: ArchiveManager, jobId: Guid, fileExists: string -> bool, now: string)
    ensures var r := DownloadResponse(manager, jobId, fileExists, now);
            && (jobId !in manager.jobs <==> r == Problem(None))
            && (jobId in manager.jobs ==>
                  var job := manager.jobs[jobId];
                  var onDisk := job.filePath.Some? && job.filePath.value != [] && fileExists(job.filePath.value);
                  && (r.NotFound? <==> !onDisk)
                  && (r.NotFound? ==> r.found == Some(job))
                  && (r.Conflict? <==> onDisk && job.status != Completed)
                  && (r.FileBody? <==> onDisk && job.status == Completed)
                  && (r.FileBody? ==> r.path == job.filePath.value && r.contentType == "application/zip"))
  {
  }

  /** POST /api/archive/cancel/{jobId}: a missing body is NotFound; an id that is not
      registered makes the lookup throw, which no handler catches, so the answer is 500;
      otherwise the job is set Canceled and returned. */
  method CancelEndpoint(manager: ArchiveManager, body: Option<ArchiveRequest>) returns (r: Response<ArchiveRequest>)
    modifies if body.Some? && body.value.id in manager.jobs then {manager.jobs[body.value.id]} else {}
    ensures body.None? ==> r == NotFound(None)
    ensures body.Some? && body.value.id !in manager.jobs ==> r == Problem(None)
    ensures body.Some? && body.value.id in manager.jobs ==>
      var job := manager.jobs[body.value.id];
      r == Response.Ok(job) && job.Snapshot() == old(job.Snapshot()).(status := Canceled)
  {
    if body.None? {
      return NotFound(None);
    }
    var result := manager.CancelArchiveRequest(body.value);
    r := if result.Ok? then Response.Ok(result.value) else Problem(None);
  }

  // ---------------------------------------------------------------- paginated search

  /** The query-string parameters of the paginated search (api.Models.ImageQuery). */
  datatype ImageQuery = ImageQuery(
    startDateTime: Option<DateTime>,
    endDateTime: Option<DateTime>,
    siteName: Option<string>,
    siteNumber: Option<int>,
    cameraPositionNumber: Option<int>,
    weatherPrediction: Option<string>,
    weatherPredictionPercent: Option<real>,
    snowPrediction: Option<string>,
    snowPredictionPercent: Option<real>)

  /** The confidence a prediction must reach when no percent is asked for. */
  const DefaultMinimumPercent: real := 80.0

  /** A search result satisfies every criterion the query supplies; a missing criterion
      constrains nothing, except a missing prediction percent, which asks for at least 80
      (a missing value counting as 0). */
  predicate QueryMatches(q: ImageQuery, img: Image) {
    && (q.startDateTime.Some? ==> AtOrBefore(q.startDateTime.value, img.dateTime))
    && (q.endDateTime.Some? ==> AtOrBefore(img.dateTime, q.endDateTime.value))
    && (q.siteName.Some? ==> img.siteName == q.siteName)
    && (q.siteNumber.Some? ==> img.siteNumber == q.siteNumber)
    && (q.cameraPositionNumber.Some? ==> img.cameraPositionNumber == q.cameraPositionNumber)
    && (!IsNullOrWhiteSpace(q.weatherPrediction) ==> img.weatherPrediction == q.weatherPrediction)
    && (if q.weatherPredictionPercent.Some? then img.weatherPredictionPercent == q.weatherPredictionPercent
        else img.weatherPredictionPercent.GetOr(0.0) >= DefaultMinimumPercent)
    && (!IsNullOrWhiteSpace(q.snowPrediction) ==> img.snowPrediction == q.snowPrediction)
    && (if q.snowPredictionPercent.Some? then img.snowPredictionPercent == q.snowPredictionPercent
        else img.snowPredictionPercent.GetOr(0.0) >= DefaultMinimumPercent)
  }

  /** The number of rows matched before paging, and the page. */
  datatype ImagePage = ImagePage(totalCount: int, images: seq<Image>)

  predicate ByDateTime(a: Image, b: Image) {
    AtOrBefore(a.dateTime, b.dateTime)
  }

  /** Where(...).OrderBy(DateTime).Skip(pageIndex * pageSize).Take(pageSize). */
  function PaginatedSpec(table: seq<Image>, q: ImageQuery, pageIndex: int, pageSize: int): ImagePage {
    var matched := Filter(table, (img: Image) => QueryMatches(q, img));
    ImagePage(|matched|, Page(SortBy(matched, ByDateTime), MulInt32(pageIndex, pageSize), pageSize))
  }

  /** The first k criteria, in the order the handler applies them. */
  predicate MatchesFirst(q: ImageQuery, k: nat, img: Image) {
    && (k > 0 && q.startDateTime.Some? ==> AtOrBefore(q.startDateTime.value, img.dateTime))
    && (k > 1 && q.endDateTime.Some? ==> AtOrBefore(img.dateTime, q.endDateTime.value))
    && (k > 2 && q.siteName.Some? ==> img.siteName == q.siteName)
    && (k > 3 && q.siteNumber.Some? ==> img.siteNumber == q.siteNumber)
    && (k > 4 && q.cameraPositionNumber.Some? ==> img.cameraPositionNumber == q.cameraPositionNumber)
    && (k > 5 && !IsNullOrWhiteSpace(q.weatherPrediction) ==> img.weatherPrediction == q.weatherPrediction)
    && (k > 6 ==>
          if q.weatherPredictionPercent.Some? then img.weatherPredictionPercent == q.weatherPredictionPercent
          else img.weatherPredictionPercent.GetOr(0.0) >= DefaultMinimumPercent)
    && (k > 7 && !IsNullOrWhiteSpace(q.snowPrediction) ==> img.snowPrediction == q.snowPrediction)
    && (k > 8 ==>
          if q.snowPredictionPercent.Some? then img.snowPredictionPercent == q.snowPredictionPercent
          else img.snowPredictionPercent.GetOr(0.0) >= DefaultMinimumPercent)
  }

  /** The rows that pass the first k criteria, as a predicate. */
  function Stage(q: ImageQuery, k: nat): Image -> bool {
    (img: Image) => MatchesFirst(q, k, img)
  }

  /** Whether the handler adds a Where for criterion k (the two percents always add one). */
  predicate Present(q: ImageQuery, k: nat) {
    match k
    case 0 => q.startDateTime.Some?
    case 1 => q.endDateTime.Some?
    case 2 => q.siteName.Some?
    case 3 => q.siteNumber.Some?
    case 4 => q.cameraPositionNumber.Some?
    case 5 => !IsNullOrWhiteSpace(q.weatherPrediction)
    case 7 => !IsNullOrWhiteSpace(q.snowPrediction)
    case _ => true
  }

  /** The test criterion k puts on a row when it is present. */
  predicate Criterion(q: ImageQuery, k: nat, img: Image)
    requires k < 9 && Present(q, k)
  {
    match k
    case 0 => AtOrBefore(q.startDateTime.value, img.dateTime)
    case 1 => AtOrBefore(img.dateTime, q.endDateTime.value)
    case 2 => img.siteName == q.siteName
    case 3 => img.siteNumber == q.siteNumber
    case 4 => img.cameraPositionNumber == q.cameraPositionNumber
    case 5 => img.weatherPrediction == q.weatherPrediction
    case 6 =>
      if q.weatherPredictionPercent.Some? then img.weatherPredictionPercent == q.weatherPredictionPercent
      else img.weatherPredictionPercent.GetOr(0.0) >= DefaultMinimumPercent
    case 7 => img.snowPrediction == q.snowPrediction
    case 8 =>
      if q.snowPredictionPercent.Some? then img.snowPredictionPercent == q.snowPredictionPercent
      else img.snowPredictionPercent.GetOr(0.0) >= DefaultMinimumPercent
  }

  /** A Where that tests criterion k takes the rows of stage k to those of stage k + 1. */
  lemma Narrow(table: seq<Image>, query: seq<Image>, q: ImageQuery, k: nat, p: Image -> bool)
    requires k < 9 && Present(q, k) && query == Filter(table, Stage(q, k))
    requires forall x :: p(x) == Criterion(q, k, x)
    ensures Filter(query, p) == Filter(table, Stage(q, k + 1))
  {
    FilterFilter(table, Stage(q, k), p, Stage(q, k + 1));
  }

  /** Passing over an absent criterion keeps the rows as they are. */
  lemma Skipped(table: seq<Image>, query: seq<Image>, q: ImageQuery, k: nat)
    requires k < 9 && !Present(q, k) && query == Filter(table, Stage(q, k))
    ensures query == Filter(table, Stage(q, k + 1))
  {
    FilterExtensional(table, Stage(q, k), Stage(q, k + 1));
  }

  /** One step of the handler: when criterion k is supplied, query = query.Where(its test). */
  method NarrowBy(ghost table: seq<Image>, query: seq<Image>, q: ImageQuery, k: nat) returns (r: seq<Image>)
    requires k < 9 && query == Filter(table, Stage(q, k))
    ensures r == Filter(table, Stage(q, k + 1))
  {
    if Present(q, k) {
      var p := (i: Image) => Criterion(q, k, i);
      Narrow(table, query, q, k, p);
      r := Filter(query, p);
    } else {
      Skipped(table, query, q, k);
      r := query;
    }
  }

  /** GET /api/images/paginated: the query is narrowed by one supplied criterion after the
      other, in the order of Criterion, then counted, ordered by DateTime and paged
      (pageIndex defaults to 0, pageSize to 9). A page the database rejects (a negative
      offset, or a page size below 1) throws from ToListAsync, which no handler catches,
      so the answer is 500. */
  method PaginatedImages(table: seq<Image>, q: ImageQuery, pageIndex: int, pageSize: int) returns (r: Response<ImagePage>)
    ensures OffsetFetchRejected(MulInt32(pageIndex, pageSize), pageSize) ==> r == Problem(None)
    ensures !OffsetFetchRejected(MulInt32(pageIndex, pageSize), pageSize) ==>
              r == Response.Ok(PaginatedSpec(table, q, pageIndex, pageSize))
  {
    var query := table;
    FilterAll(table, Stage(q, 0));
    query := NarrowBy(table, query, q, 0);
    query := NarrowBy(table, query, q, 1);
    query := NarrowBy(table, query, q, 2);
    query := NarrowBy(table, query, q, 3);
    query := NarrowBy(table, query, q, 4);
    query := NarrowBy(table, query, q, 5);
    query := NarrowBy(table, query, q, 6);
    query := NarrowBy(table, query, q, 7);
    query := NarrowBy(table, query, q, 8);
    FilterExtensional(table, Stage(q, 9), (img: Image) => QueryMatches(q, img));
    var totalCount := |query|;
    var offset := MulInt32(pageIndex, pageSize);
    if OffsetFetchRejected(offset, pageSize) {
      return Problem(None);
    }
    var images := Page(SortBy(query, ByDateTime), offset, pageSize);
    r := Response.Ok(ImagePage(totalCount, images));
  }

  lemma ByDateTimeIsTotal()
    ensures TotalPreorder(ByDateTime)
  {
  }

  /** A page holds only rows of the table that satisfy every criterion, in DateTime order,
      and never more than pageSize of them nor more than the total count. */
  lemma PageMatchesQuery(table: seq<Image>, q: ImageQuery, pageIndex: int, pageSize: int)
    ensures var page := PaginatedSpec(table, q, pageIndex, pageSize);
            && (forall img :: img in page.images ==> img in table && QueryMatches(q, img))
            && SortedBy(page.images, ByDateTime)
            && |page.images| <= page.totalCount
            && (pageSize >= 0 ==> |page.images| <= pageSize)
  {
    var keep := (img: Image) => QueryMatches(q, img);
    var matched := Filter(table, keep);
    var sorted := SortBy(matched, ByDateTime);
    var offset := MulInt32(pageIndex, pageSize);
    ByDateTimeIsTotal();
    SortBySorted(matched, ByDateTime);
    PageIsSlice(sorted, offset, pageSize);
    PageOfSorted(sorted, offset, pageSize, ByDateTime);
    forall img | img in Page(sorted, offset, pageSize)
      ensures img in table && QueryMatches(q, img)
    {
      assert img in multiset(sorted);
      FilterMembership(table, keep, img);
    }
  }

  /** Two adjacent pages of one size are both served, and neither overlap nor leave a
      gap: together they are the page of twice that size at the first offset. */
  lemma AdjacentPages(table: seq<Image>, q: ImageQuery, pageIndex: nat, pageSize: nat)
    requires pageSize >= 1 && (pageIndex + 1) * pageSize <= Int32Max
    ensures !OffsetFetchRejected(MulInt32(pageIndex, pageSize), pageSize)
    ensures !OffsetFetchRejected(MulInt32(pageIndex + 1, pageSize), pageSize)
    ensures var sorted := SortBy(Filter(table, (img: Image) => QueryMatches(q, img)), ByDateTime);
            PaginatedSpec(table, q, pageIndex, pageSize).images + PaginatedSpec(table, q, pageIndex + 1, pageSize).images
              == Page(sorted, pageIndex * pageSize, 2 * pageSize)
  {
    var sorted := SortBy(Filter(table, (img: Image) => QueryMatches(q, img)), ByDateTime);
    var offset := pageIndex * pageSize;
    NextOffset(pageIndex, pageSize);
    assert MulInt32(pageIndex, pageSize) == offset;
    assert MulInt32(pageIndex + 1, pageSize) == offset + pageSize;
    assert PaginatedSpec(table, q, pageIndex, pageSize).images == Page(sorted, offset, pageSize);
    assert PaginatedSpec(table, q, pageIndex + 1, pageSize).images == Page(sorted, offset + pageSize, pageSize);
    PagesAdjacent(sorted, offset, pageSize);
  }

  lemma NextOffset(x: nat, y: nat)
    ensures 0 <= x * y <= (x + 1) * y == x * y + y
  {
  }

  // ---------------------------------------------------------------- image by id

  /** GET /api/images/{id}: the row with that key, opened and sent with the content type of
      its extension; no row is NotFound, and a null path or a missing file makes the open
      throw, which the handler turns into a bare 500. */
  function ImageResponse(table: seq<Image>, id: int, fileExists: string -> bool): (r: Response<Image>)
    ensures r.NotFound? <==> forall i :: 0 <= i < |table| ==> table[i].id != id
    ensures r.NotFound? ==> r.found == None
    ensures r.FileBody? ==> exists i :: 0 <= i < |table| && table[i].id == id && table[i].filePath == Some(r.path)
    ensures r.FileBody? ==> fileExists(r.path) && r.contentType == MimeTypeOfPath(r.path) && r.downloadName == None
    ensures r.NotFound? || r.FileBody? || r == Problem(None)
  {
    match FindFirst(table, (img: Image) => img.id == id)
    case None => NotFound(None)
    case Some(img) =>
      if img.filePath.None? || !fileExists(img.filePath.value) then Problem(None)
      else FileBody(img.filePath.value, MimeTypeOfPath(img.filePath.value), None)
  }

  // ---------------------------------------------------------------- query history

  /** Newer first: OrderByDescending(Timestamp). */
  predicate NewerFirst(a: UserQuery, b: UserQuery) {
    AtOrBefore(b.timestamp, a.timestamp)
  }

  /** GET /api/query-history: every logged query, newest first, or NotFound when none is. */
  function QueryHistory(queries: seq<UserQuery>): (r: Response<seq<UserQuery>>)
    ensures r.NotFound? <==> queries == []
    ensures r.NotFound? ==> r.found == None
    ensures r.Ok? <==> queries != []
    ensures r.Ok? ==> multiset(r.body) == multiset(queries)
  {
    if queries == [] then NotFound(None) else Response.Ok(SortBy(queries, NewerFirst))
  }

  /** The history is ordered by Timestamp, newest first. */
  lemma QueryHistorySorted(queries: seq<UserQuery>)
    requires queries != []
    ensures SortedBy(QueryHistory(queries).body, NewerFirst)
  {
    assert TotalPreorder(NewerFirst);
    SortBySorted(queries, NewerFirst);
  }
}
