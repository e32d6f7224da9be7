/** The student client's own request record (code_student/help_request.py). */
module StudentRequests {
  import HelpRequests

  datatype HelpRequest = HelpRequest(
    moduleNumber: int,
    taskIdx: int,
    isOnline: bool,
    zoomUrl: string,
    comment: string,
    status: HelpRequests.RequestStatus,
    queuePos: int)

  function NewHelpRequest(moduleNumber: int, taskIdx: int, isOnline: bool, zoomUrl: string,
                          comment: string): (r: HelpRequest)
    ensures r.status == HelpRequests.Unsent && r.queuePos == -1
    ensures r.moduleNumber == moduleNumber && r.taskIdx == taskIdx
    ensures r.isOnline == isOnline && r.zoomUrl == zoomUrl && r.comment == comment
  {
    HelpRequest(moduleNumber, taskIdx, isOnline, zoomUrl, comment, HelpRequests.Unsent, -1)
  }

  /** Marks the request as sent; no other field moves. */
  function SendRequest(req: HelpRequest): (r: HelpRequest)
    ensures r.status == HelpRequests.Sent
    ensures r.(status := req.status) == req
  {
    req.(status := HelpRequests.Sent)
  }

  lemma SendRequestIdempotent(req: HelpRequest)
    ensures SendRequest(SendRequest(req)) == SendRequest(req)
  {
  }
}
