/** The earlier request-form record of the student client (code_student/request_form.py),
    which has no zoom link. */
module RequestForm {
  import HelpRequests

  datatype HelpRequest = HelpRequest(
    moduleNumber: int,
    taskIdx: int,
    isOnline: bool,
    comment: string,
    status: HelpRequests.RequestStatus,
    queuePos: int)

  function NewHelpRequest(moduleNumber: int, taskIdx: int, isOnline: bool, comment: string): (r: HelpRequest)
    ensures r.status == HelpRequests.Unsent && r.queuePos == -1
    ensures r.moduleNumber == moduleNumber && r.taskIdx == taskIdx
    ensures r.isOnline == isOnline && r.comment == comment
  {
    HelpRequest(moduleNumber, taskIdx, isOnline, comment, HelpRequests.Unsent, -1)
  }

  /** Marks the request as sent; no other field moves. */
  function SendRequest(req: HelpRequest): (r: HelpRequest)
    ensures r.status == HelpRequests.Sent
    ensures r.(status := req.status) == req
  {
    req.(status := HelpRequests.Sent)
  }

  lemma SendRequestIdempotent(req: HelpRequest)
    ensures SendRequest(SendRequest(req)) == SendRequest(req)
  {
  }
}
