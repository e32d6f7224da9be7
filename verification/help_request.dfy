/** The help-request record shared by the TA client (common/help_request.py). */
module HelpRequests {
  import opened Wrappers

  /** Request ids are uuid strings in the source; any string will do here. */
  type Id = string

  /** The four request states, with the integer values the enumeration gives them. */
  datatype RequestStatus = Unsent | Sent | Confirmed | Completed

  function StatusValue(s: RequestStatus): (v: int)
    ensures 0 <= v <= 3
  {
    match s
    case Unsent => 0
    case Sent => 1
    case Confirmed => 2
    case Completed => 3
  }

  /** Lookup by value, as `RequestStatus(v)` does; None where the enumeration would raise. */
  function StatusOf(v: int): (r: Option<RequestStatus>)
    ensures r.Some? <==> 0 <= v <= 3
    ensures r.Some? ==> StatusValue(r.value) == v
  {
    if v == 0 then Some(Unsent)
    else if v == 1 then Some(Sent)
    else if v == 2 then Some(Confirmed)
    else if v == 3 then Some(Completed)
    else None
  }

  /** Every status is recovered from its value: the enumeration has exactly the four
      members above and no two share a value. */
  lemma StatusRoundTrip(s: RequestStatus)
    ensures StatusOf(StatusValue(s)) == Some(s)
  {
  }

  datatype HelpRequest = HelpRequest(
    id: Id,
    moduleNumber: int,
    taskIdx: int,
    isOnline: bool,
    zoomUrl: string,
    comment: string,
    status: RequestStatus,
    queuePos: int,
    groupNumber: int,
    claimedBy: Option<string>,
    time: string)

  /** The constructor. The source draws `id` from uuid1() and `time` from the wall clock;
      both are inputs here. */
  function NewHelpRequest(id: Id, groupNumber: int, moduleNumber: int, taskIdx: int,
                          isOnline: bool, zoomUrl: string, comment: string, time: string): (r: HelpRequest)
    ensures r.status == Unsent && r.queuePos == -1 && r.claimedBy == None
    ensures r.id == id && r.time == time
    ensures r.groupNumber == groupNumber && r.moduleNumber == moduleNumber && r.taskIdx == taskIdx
    ensures r.isOnline == isOnline && r.zoomUrl == zoomUrl && r.comment == comment
  {
    HelpRequest(id, moduleNumber, taskIdx, isOnline, zoomUrl, comment, Unsent, -1, groupNumber, None, time)
  }
}
