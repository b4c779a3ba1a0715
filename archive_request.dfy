/** The archive job record of the current API (api.Models.ArchiveRequest): what the client
    asked for, and the progress and outcome the manager writes into it while the archive
    is built. */
module ApiModels {
  import opened Wrappers
  import opened Calendar
  import opened Records

  /** The fields the client supplies in the request body; the manager only reads them. */
  datatype ArchiveCriteria = ArchiveCriteria(
    startDateTime: DateTime,
    endDateTime: DateTime,
    siteName: Option<string>,
    siteNumber: Option<int>,
    cameraPositionNumber: Option<int>)

  /** Every field of a request at one moment, so that a method can state its whole
      effect as one update of this value. */
  datatype RequestState = RequestState(
    id: Guid,
    filePath: Option<string>,
    criteria: ArchiveCriteria,
    status: ArchiveStatus,
    exceptionMessages: seq<string>,
    totalImages: int,
    processedImages: int)

  class ArchiveRequest {
    var id: Guid
    var filePath: Option<string>
    var startDateTime: DateTime
    var endDateTime: DateTime
    var siteName: Option<string>
    var siteNumber: Option<int>
    var cameraPositionNumber: Option<int>
    var status: ArchiveStatus
    var exceptionMessages: seq<string>
    var totalImages: int
    var processedImages: int

    function Criteria(): ArchiveCriteria
      reads this
    {
      ArchiveCriteria(startDateTime, endDateTime, siteName, siteNumber, cameraPositionNumber)
    }

    function Snapshot(): RequestState
      reads this
    {
      RequestState(id, filePath, Criteria(), status, exceptionMessages, totalImages, processedImages)
    }

    /** A request as the JSON binder creates it: status Unknown, no messages, no archive
        path and no progress yet. */
    constructor(id: Guid, criteria: ArchiveCriteria)
      ensures Snapshot() == RequestState(id, None, criteria, Unknown, [], 0, 0)
    {
      this.id := id;
      filePath := None;
      startDateTime := criteria.startDateTime;
      endDateTime := criteria.endDateTime;
      siteName := criteria.siteName;
      siteNumber := criteria.siteNumber;
      cameraPositionNumber := criteria.cameraPositionNumber;
      status := Unknown;
      exceptionMessages := [];
      totalImages := 0;
      processedImages := 0;
    }

    /** Appends one message after the existing ones and marks the job Failed, whatever
        its status was. */
    method AddError(message: string)
      modifies this
      ensures Snapshot() == old(Snapshot()).(status := Failed, exceptionMessages := old(exceptionMessages) + [message])
    {
      exceptionMessages := exceptionMessages + [message];
      status := Failed;
    }

    /** Counts one more record reached by the archive loop. */
    method IncrementProcessedImages()
      modifies this
      ensures Snapshot() == old(Snapshot()).(processedImages := old(processedImages) + 1)
    {
      processedImages := processedImages + 1;
    }
  }

  /** The effect of k calls of AddError with the given messages: they are appended in
      order, and the job is Failed as soon as there was at least one. */
  method AddErrors(request: ArchiveRequest, messages: seq<string>)
    modifies request
    ensures request.Snapshot() == old(request.Snapshot()).(
      status := if messages == [] then old(request.status) else Failed,
      exceptionMessages := old(request.exceptionMessages) + messages)
  {
    var j := 0;
    while j < |messages|
      invariant 0 <= j <= |messages|
      invariant request.Snapshot() == old(request.Snapshot()).(
        status := if j == 0 then old(request.status) else Failed,
        exceptionMessages := old(request.exceptionMessages) + messages[..j])
    {
      request.AddError(messages[j]);
      assert messages[..j + 1] == messages[..j] + [messages[j]];
      j := j + 1;
    }
    assert messages[..j] == messages;
  }
}
