/** A course module with its per-task completion flags and the requests raised in it
    (common/module.py). */
module CourseModules {
  import opened Wrappers
  import opened HelpRequests

  datatype Module = Module(
    number: int,
    name: string,
    taskCount: int,
    finishedTasks: seq<bool>,
    requests: seq<HelpRequest>,
    latestRequest: Option<HelpRequest>)

  /** `[False] * task_count` is empty for a negative count. */
  function FlagCount(taskCount: int): nat
  {
    if taskCount < 0 then 0 else taskCount
  }

  /** What every module keeps true: one flag per task, and `latestRequest` is the last
      request added (none before the first). */
  ghost predicate Wf(m: Module)
  {
    && |m.finishedTasks| == FlagCount(m.taskCount)
    && (if |m.requests| == 0 then m.latestRequest == None
        else m.latestRequest == Some(m.requests[|m.requests| - 1]))
  }

  function NewModule(number: int, name: string, taskCount: int): (m: Module)
    ensures Wf(m)
    ensures m.number == number && m.name == name && m.taskCount == taskCount
    ensures forall i :: 0 <= i < |m.finishedTasks| ==> !m.finishedTasks[i]
    ensures m.requests == [] && m.latestRequest == None
  {
    Module(number, name, taskCount, seq(FlagCount(taskCount), _ => false), [], None)
  }

  /** Records whether task `taskIdx` is finished; an index past the end is reported and
      ignored. */
  function SetFinishStatus(m: Module, taskIdx: nat, status: bool): (m': Module)
    ensures taskIdx >= |m.finishedTasks| ==> m' == m
    ensures |m'.finishedTasks| == |m.finishedTasks|
    ensures taskIdx < |m.finishedTasks| ==> m'.finishedTasks[taskIdx] == status
    ensures forall j :: 0 <= j < |m.finishedTasks| && j != taskIdx ==> m'.finishedTasks[j] == m.finishedTasks[j]
    ensures m'.(finishedTasks := m.finishedTasks) == m
    ensures Wf(m) ==> Wf(m')
  {
    if taskIdx >= |m.finishedTasks| then m
    else m.(finishedTasks := m.finishedTasks[taskIdx := status])
  }

  function AddRequest(m: Module, request: HelpRequest): (m': Module)
    ensures |m'.requests| == |m.requests| + 1
    ensures m'.requests[..|m.requests|] == m.requests && m'.requests[|m.requests|] == request
    ensures m'.latestRequest == Some(request)
    ensures m'.(requests := m.requests, latestRequest := m.latestRequest) == m
    ensures Wf(m) ==> Wf(m')
  {
    m.(requests := m.requests + [request], latestRequest := Some(request))
  }

  /** Setting a task's status twice is the same as setting it once. */
  lemma SetFinishStatusIdempotent(m: Module, taskIdx: nat, status: bool)
    ensures SetFinishStatus(SetFinishStatus(m, taskIdx, status), taskIdx, status) == SetFinishStatus(m, taskIdx, status)
  {
  }
}
