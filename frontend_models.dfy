/** The archive job record as the web front end holds it (frontend.Models.ArchiveRequest):
    the same criteria and status as the API's, but the list of error messages is created
    only by the first AddError. */
module FrontendModels {
  import opened Wrappers
  import opened Calendar
  import opened Records

  /** Every field of a request at one moment. */
  datatype RequestState = RequestState(
    id: Guid,
    filePath: Option<string>,
    startDateTime: DateTime,
    endDateTime: DateTime,
    siteName: Option<string>,
    siteNumber: Option<int>,
    cameraPositionNumber: Option<int>,
    status: ArchiveStatus,
    exceptionMessages: Option<seq<string>>)

  /** The message list after one AddError: an absent list counts as empty, the earlier
      messages stay in front and the new one comes last. */
  function WithError(messages: Option<seq<string>>, message: string): (r: seq<string>)
    ensures |r| == |messages.GetOr([])| + 1
    ensures r[..|r| - 1] == messages.GetOr([]) && r[|r| - 1] == message
  {
    messages.GetOr([]) + [message]
  }

  /** The message list after AddError with each of the messages in turn. */
  function WithErrors(messages: Option<seq<string>>, added: seq<string>): Option<seq<string>> {
    if added == [] then messages
    else Some(WithError(WithErrors(messages, added[..|added| - 1]), added[|added| - 1]))
  }

  /** After k calls the list exists and has grown by exactly the k messages, in order;
      after none it is as it was, possibly still absent. */
  lemma {:induction false} WithErrorsAppends(messages: Option<seq<string>>, added: seq<string>)
    ensures added != [] ==> WithErrors(messages, added) == Some(messages.GetOr([]) + added)
    ensures added == [] ==> WithErrors(messages, added) == messages
  {
    if |added| > 1 {
      var init := added[..|added| - 1];
      WithErrorsAppends(messages, init);
      assert messages.GetOr([]) + init + [added[|added| - 1]] == messages.GetOr([]) + added;
    } else if |added| == 1 {
      assert added[..0] == [];
      assert added == [added[0]];
    }
  }

  class ArchiveRequest {
    var id: Guid
    var filePath: Option<string>
    var startDateTime: DateTime
    var endDateTime: DateTime
    var siteName: Option<string>
    var siteNumber: Option<int>
    var cameraPositionNumber: Option<int>
    var status: ArchiveStatus
    var exceptionMessages: Option<seq<string>>

    function Snapshot(): RequestState
      reads this
    {
      RequestState(id, filePath, startDateTime, endDateTime, siteName, siteNumber, cameraPositionNumber, status, exceptionMessages)
    }

    /** The implicit constructor: every field at its default, so status Unknown (the
        enum's zero) and no message list. */
    constructor()
      ensures Snapshot() == RequestState(EmptyGuid, None, MinValue, MinValue, None, None, None, Unknown, None)
    {
      id := EmptyGuid;
      filePath := None;
      startDateTime := MinValue;
      endDateTime := MinValue;
      siteName := None;
      siteNumber := None;
      cameraPositionNumber := None;
      status := Unknown;
      exceptionMessages := None;
    }

    /** Creates the list when there is none, appends the message and marks the job
        Failed, whatever its status was. */
    method AddError(message: string)
      modifies this
      ensures Snapshot() == old(Snapshot()).(status := Failed, exceptionMessages := Some(WithError(old(exceptionMessages), message)))
    {
      if exceptionMessages.None? {
        exceptionMessages := Some([]);
      }
      exceptionMessages := Some(exceptionMessages.value + [message]);
      status := Failed;
    }
  }

  /** k calls of AddError: the list ends up holding the old messages followed by the k
      new ones, and the job is Failed as soon as there was one. */
  method AddErrors(request: ArchiveRequest, messages: seq<string>)
    modifies request
    ensures request.Snapshot() == old(request.Snapshot()).(
      status := if messages == [] then old(request.status) else Failed,
      exceptionMessages := WithErrors(old(request.exceptionMessages), messages))
    ensures messages != [] ==> request.exceptionMessages == Some(old(request.exceptionMessages).GetOr([]) + messages)
  {
    var j := 0;
    while j < |messages|
      invariant 0 <= j <= |messages|
      invariant request.Snapshot() == old(request.Snapshot()).(
        status := if j == 0 then old(request.status) else Failed,
        exceptionMessages := WithErrors(old(request.exceptionMessages), messages[..j]))
    {
      request.AddError(messages[j]);
      assert messages[..j + 1][..j] == messages[..j];
      j := j + 1;
    }
    assert messages[..j] == messages;
    WithErrorsAppends(old(request.exceptionMessages), messages);
  }
}
