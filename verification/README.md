# Lab help-queue system — a Dafny model of its core

The system lets student groups in a lab course ask teaching assistants (TAs) for help.

- A student client sends a help request and follows its queue position.
- TA clients keep a registry of open requests. They claim, resolve and release requests through a small state machine, and they collect feedback per task.
- A configuration editor maintains the list of course modules and student groups.

This project models the parts of the system that have sequential behaviour. Each part is a Dafny module with immutable datatypes and pure functions. The contracts and lemmas state what each operation promises:

- `QueueManager` (code_student/queue_manager.py) models the student's queue-position bookkeeping. It keeps an ordered list of `(id, time)` entries, a global count and an optional own request with its local position. The model proves:
  - the invariants every operation keeps;
  - that the local position is the own request's rank in the queue, provided every new request arrives with a later time than everything already queued (a late arrival with an earlier time breaks this, as `QueueManager.LateAddBreaksRank` shows);
  - the scenario of the file's test block.
- `StudentMachine` (code_student/stm_utils.py) models the per-request student state machine (`unsent`/`sent`/`confirmed`). It is a function from (state, trigger) to the next state and effect.
- `TaMachine` (code_teaching_assistant/stm_utils.py) models the TA's claim machine (`unclaimed`/`waiting`/`claimed`). It includes the entry and exit actions, the signals handled in place, and timer `t`. Its step is an explicit case analysis. It is proved equal, for every state and trigger, to the run-to-completion lookup in the transition and state tables as written.
- `TaClient` (code_teaching_assistant/main.py) models what the TA machine's effects and the help-request page's buttons do to the request registry, the active request and the feedback store. Publishing to the message bus is a boolean input: did the bus accept the message.
- `TaSession` composes the claim machine, the effects and the message filter into one client. It states the claim race between two TAs from one TA's point of view.
- `SetupConfig` (setup/main.py) models the configuration editor's list logic:
  - lookup, replacement and deletion by number;
  - the smallest vacant number;
  - the two add/edit form validators.
- `HelpRequests`, `StudentRequests`, `RequestForm`, `CourseModules` and `Groups` model the records (common/help_request.py, code_student/help_request.py, code_student/request_form.py, common/module.py, common/group.py). `Wrappers` holds `Option` and `Result`.
- setup/main.py imports its module and group classes from code_student/module.py and code_student/group.py, which are not part of this model. `SetupConfig` uses the common records instead: the editor reads only their number, name, task count and table fields.

The model uses these conventions:

- Clock readings are integers.
- Request ids and timestamps are parameters.
- Redrawing the window is a no-op.
- Each event is handled to completion before the next one, as the single machine driver does.

In the queue's test scenario, C is re-added after A and B are resolved. D is still queued and is older than the new C, so C's local position is 2 of 2. `QueueManager.TestBlockScenario` states this.

## Model

| member | source | states |
|---|---|---|
| HelpRequests.StatusOf | common/help_request.py:6-10 | exactly the integers 0..3 are request statuses, and decoding a value gives the status whose value it is |
| HelpRequests.StatusRoundTrip | common/help_request.py:6-10 | the four statuses have distinct values 0..3, so value and status convert both ways |
| HelpRequests.NewHelpRequest | common/help_request.py:15-26 | a new request is unsent, has queue position -1 and no claimer, and stores group, module, task, online flag, link, comment, id and time as given |
| StudentRequests.NewHelpRequest | code_student/help_request.py:13-20 | a new student request is unsent with queue position -1 and stores module, task, online flag, link and comment as given |
| StudentRequests.SendRequest | code_student/help_request.py:22-24 | sending sets the status to sent and changes no other field |
| StudentRequests.SendRequestIdempotent | code_student/help_request.py:22-24 | sending twice is the same as sending once |
| RequestForm.NewHelpRequest | code_student/request_form.py:13-19 | a new form request is unsent with queue position -1 and stores module, task, online flag and comment as given |
| RequestForm.SendRequest | code_student/request_form.py:21-23 | sending sets the status to sent and changes no other field |
| RequestForm.SendRequestIdempotent | code_student/request_form.py:21-23 | sending twice is the same as sending once |
| CourseModules.NewModule | common/module.py:5-11 | a new module has one finished-flag per task, all false, no requests and no latest request, and is well formed |
| CourseModules.SetFinishStatus | common/module.py:13-18 | an index past the flags leaves the module unchanged; otherwise only that flag takes the new value, the length and all other fields stay, and well-formedness is kept |
| CourseModules.SetFinishStatusIdempotent | common/module.py:13-18 | setting the same flag to the same value twice is the same as once |
| CourseModules.AddRequest | common/module.py:20-22 | the request list grows by exactly the new request at the end, it becomes the latest request, nothing else changes, and "latest is the last request" is kept |
| QueueManager.IsIn | code_student/queue_manager.py:5-9 | true exactly when some entry carries the id, i.e. when the first-match index lies inside the list |
| QueueManager.RemoveFrom | code_student/queue_manager.py:12-17 | only the first entry with the id is removed, the rest keep their order; an absent id leaves the list as it is |
| QueueManager.GetRequestTime | code_student/queue_manager.py:20-24 | a time is found exactly when the id is queued, and it is the time of the first entry with that id |
| QueueManager.OnCancel | code_student/queue_manager.py:40-53 | an unknown id changes nothing; otherwise exactly that entry leaves and the global count drops by one; the own request leaving clears local position and active request; another leaving lowers the local position by one exactly when it arrived strictly earlier than the own request |
| QueueManager.OnResolve | code_student/queue_manager.py:55-56 | resolving has exactly the effect of cancelling |
| QueueManager.OnAdd | code_student/queue_manager.py:58-65 | a known id changes nothing; a new id is appended as exactly (id, time) and the global count grows by one; the own request becomes active with the new global count as local position, any other leaves both untouched |
| QueueManager.InitValid | code_student/queue_manager.py:29-35 | the empty manager satisfies the invariant: global count equals list length, ids distinct, local position set exactly when an active request is, active request queued |
| QueueManager.OnAddValid | code_student/queue_manager.py:58-65 | adding keeps that invariant |
| QueueManager.OnCancelValid | code_student/queue_manager.py:40-53 | cancelling keeps that invariant |
| QueueManager.Run | code_student/queue_manager.py:40-65 | every state reached by any sequence of adds, cancels and resolves from a valid state is valid |
| QueueManager.OnAddRanked | code_student/queue_manager.py:58-65 | with a monotone clock, after an add the local position is still the number of queued entries that arrived no later than the own request |
| QueueManager.OnCancelRanked | code_student/queue_manager.py:40-53 | after a cancel the local position is still that rank |
| QueueManager.RunRanked | code_student/queue_manager.py:40-65 | the local position is the own request's rank after any run under a monotone clock |
| QueueManager.LateAddBreaksRank | code_student/queue_manager.py:58-65 | an add carrying an earlier time than this client's request, arriving after it, leaves the local position 1 although two queued entries are no later: the rank holds only under a monotone clock |
| QueueManager.RankedBounds | code_student/queue_manager.py:48-53 | consequently the local position lies between 1 and the global count |
| QueueManager.TestBlockScenario | code_student/queue_manager.py:69-95 | A, B, C (own), D give local 3 of 4; resolving A gives 2 of 3; resolving C clears the local position (2 left); resolving B leaves 1; re-adding C gives local 2 of 2 |
| StudentMachine.Step | code_student/stm_utils.py:2-47 | a step is taken exactly when the table lists (state, trigger), and then it is the listed target and effect; otherwise the trigger is discarded |
| StudentMachine.TableDeterministic | code_student/stm_utils.py:2-47 | no (source, trigger) pair is listed twice |
| StudentMachine.ClickToggles | code_student/stm_utils.py:7-16 | click toggles unsent and sent, and is ignored while confirmed |
| StudentMachine.QueueSignalOnlyWhenSent | code_student/stm_utils.py:17-22 | a queue update is taken only in sent, as a self-loop updating the position |
| StudentMachine.FirstClaimWins | code_student/stm_utils.py:23-40 | a claim is accepted exactly in sent and confirms the request; a later claim while confirmed is rejected; unsent ignores claims |
| StudentMachine.LeavingConfirmed | code_student/stm_utils.py:29-46 | confirmed is left exactly on unclaim (back to sent) or resolve (back to unsent) |
| StudentMachine.ConfirmedUntilReleased | code_student/stm_utils.py:23-46 | any run without unclaim or resolve keeps a confirmed request confirmed and accepts no further claim |
| StudentMachine.AllStatesReachable | code_student/stm_utils.py:3-28 | every state is reached from the initial state within two triggers |
| TaMachine.TransitionsDeterministic | code_teaching_assistant/stm_utils.py:2-39 | no (source, trigger) pair is listed twice |
| TaMachine.Step | code_teaching_assistant/stm_utils.py:2-65 | every step asks for at most one action, and a discarded trigger has neither a listed transition nor a handler in that state |
| TaMachine.StepFollowsTable | code_teaching_assistant/stm_utils.py:2-65 | for every state and trigger, the step equals the lookup in the tables as written: a listed transition runs the source's exit actions, its effect and the target's entry actions; a handled signal runs its action in place; anything else is discarded |
| TaMachine.ClaimOnlyFromUnclaimed | code_teaching_assistant/stm_utils.py:3-11 | the claim button is taken exactly in unclaimed, moving to waiting and starting timer t for 500 ms |
| TaMachine.TimerOnlyWhileWaiting | code_teaching_assistant/stm_utils.py:12-17 | timer t is taken exactly in waiting, back to unclaimed, running the timer-expired effect |
| TaMachine.ConfirmOnlyWhileWaiting | code_teaching_assistant/stm_utils.py:18-23 | a claim confirmation is taken exactly in waiting, moving to claimed and stopping timer t |
| TaMachine.ResolveLeadsToUnclaimed | code_teaching_assistant/stm_utils.py:24-38 | resolve leads to unclaimed from claimed (running the resolution exit action) and from waiting (running nothing); unclaimed ignores it |
| TaMachine.CancelOnlyWhileWaiting | code_teaching_assistant/stm_utils.py:29-33 | cancel-claim is taken exactly in waiting, runs nothing, and claimed ignores it |
| TaMachine.SignalsHandledEverywhere | code_teaching_assistant/stm_utils.py:43-64 | feedback, new-request and removed-request signals are handled in every state without leaving it |
| TaMachine.LeavingClaimedResolves | code_teaching_assistant/stm_utils.py:57-61 | the only way out of claimed is resolve, and it runs the resolution first |
| TaMachine.StepNeverCancels | code_teaching_assistant/stm_utils.py:2-65 | no step runs the cancel-claim handler |
| TaMachine.CancelClaimNeverRuns | code_teaching_assistant/stm_utils.py:2-65 | over any run of triggers the cancel-claim handler is never invoked |
| TaMachine.ClaimedUntilResolved | code_teaching_assistant/stm_utils.py:24-28 | any run without resolve keeps claimed and never runs the resolution |
| TaMachine.AllStatesReachable | code_teaching_assistant/stm_utils.py:3-23 | every state is reached from the initial state within two triggers |
| TaClient.Signal | code_teaching_assistant/main.py:49-70 | a confirmation fires the confirm signal exactly when it names the logged-in TA, and nothing otherwise; add, cancel and feedback messages fire their own signals; other messages fire none |
| TaClient.RecHelpReq | code_teaching_assistant/main.py:157-158 | the registry grows by exactly the received request at the end, without de-duplication; nothing else changes |
| TaClient.RemHelpReq | code_teaching_assistant/main.py:163-168 | only the first request with the cancelled id is removed (one fewer when found); an unknown or missing id changes nothing |
| TaClient.RequestResolved | code_teaching_assistant/main.py:121-129 | on a failed publish nothing changes; on success the active request is forgotten and its first registry entry removed |
| TaClient.TimerExpired | code_teaching_assistant/main.py:132-134 | the active request's claim is cleared in the registry and the active request is forgotten |
| TaClient.CancelClaim | code_teaching_assistant/main.py:172-177 | without an active request, or on a failed publish, nothing changes; otherwise its claim is cleared and it is forgotten |
| TaClient.FeedbackIdxForModuleTask | code_teaching_assistant/main.py:188-193 | -1 exactly when no feedback is for (module, task); otherwise the first such index |
| TaClient.FeedbackIdxForGroupModuleTask | code_teaching_assistant/main.py:195-200 | -1 exactly when no feedback is from that group for (module, task); otherwise the first such index |
| TaClient.AddOrUpdateFeedbackResponse | code_teaching_assistant/main.py:202-207 | the feedback replaces the first entry for its (module, task), or is appended when there is none; the store grows by at most one |
| TaClient.UpsertKeepsTasksUnique | code_teaching_assistant/main.py:202-207 | if no two stored feedbacks share a (module, task), the upsert keeps it so and stores the new feedback |
| TaClient.ReceiveFeedback | code_teaching_assistant/main.py:143-151 | an empty inbox changes nothing; otherwise the newest submission is taken off the inbox and replaces the first stored one from the same group for the same task, or is appended |
| TaClient.ReceiveKeepsGroupTasksUnique | code_teaching_assistant/main.py:143-151 | if no group has two stored feedbacks for one (module, task), receiving feedback keeps it so, and the received feedback is stored |
| TaClient.PageRequest | code_teaching_assistant/main.py:322-330 | a help-request page acts on the first registry entry with its request's id while there is one, and on its own detached copy once a cancellation has removed it |
| TaClient.OnClaim | code_teaching_assistant/main.py:337-350 | an unclaimed page request is marked claimed by this TA and confirmed before publishing, in the registry only while it is registered; only an accepted publish makes it active and fires the claim button; an already claimed request only fires cancel-claim |
| TaClient.RefusedClaimBlocksRetry | code_teaching_assistant/main.py:337-350 | after a claim the bus refused, the registered request stays marked as claimed by this TA, so pressing the button again only fires cancel-claim |
| TaClient.OnClaimReverting | code_teaching_assistant/main.py:337-350 | the claim button with the evident intent: a refused claim leaves everything as it was; an accepted one behaves as the button as written |
| TaClient.RevertedClaimAllowsRetry | code_teaching_assistant/main.py:337-350 | with that button, a refused claim changes nothing and a retry the bus accepts fires the claim button |
| TaClient.OnResolveClaim | code_teaching_assistant/main.py:352-355 | the page request is marked completed (in the registry only while it is registered), becomes the active request, and resolve is fired |
| TaSession.Launch | code_teaching_assistant/main.py:95-114 | the constructed client has its machine in the initial state, an empty registry, feedback store and inbox, nothing active, and nobody logged in |
| TaSession.Perform | code_teaching_assistant/main.py:117-179 | each machine action runs its effect: timer actions change nothing; timer expiry clears the active claim; the resolution and the claim release act only on an accepted publish; a received request is appended; a cancelled one is removed; received feedback is stored; the machine state and the names are untouched |
| TaSession.Dispatch | code_teaching_assistant/main.py:117-179 | a discarded trigger changes nothing; a taken one moves the machine to the step's target and runs the step's action, if any, against the session; "waiting or claimed implies an active request" is kept |
| TaSession.Handle | code_teaching_assistant/main.py:49-70 | handling any message, button press, timer expiry, login or logout keeps "waiting or claimed implies an active request"; a login with a name records it as the user and the TA name and changes nothing else, an empty name and a logout change nothing, and no other event changes the names |
| TaSession.DeliverAddAppends | code_teaching_assistant/main.py:53-55 | a received request is appended to the registry in every machine state, leaving the machine and the active request alone |
| TaSession.DeliverCancelRemoves | code_teaching_assistant/main.py:59-61 | a cancellation removes the first registry entry with its id in every machine state, leaving the machine and the active request alone |
| TaSession.DeliverFeedbackStores | code_teaching_assistant/main.py:62-64 | received feedback is stored in every machine state and the inbox returns to what it was |
| TaSession.ResolveWhileClaimed | code_teaching_assistant/main.py:352-355 | resolving in claimed leaves claimed; an accepted resolution removes the request from the registry and leaves nothing active, a refused one keeps the completed request active |
| TaSession.MessagesBeforeLoginAreKept | code_teaching_assistant/main.py:249-256 | a request received before anyone logs in is still in the registry after login, and login records the name |
| TaSession.OnlyConfirmationEntersClaimed | code_teaching_assistant/stm_utils.py:18-23 | claimed is entered only from waiting on a claim confirmation |
| TaSession.ClaimedOnlyByOwnConfirmation | code_teaching_assistant/main.py:65-70 | a TA reaches claimed only from waiting, on a delivered confirmation naming this TA |
| TaSession.LosingClaimTimesOut | code_teaching_assistant/main.py:65-70 | a waiting TA ignores a confirmation naming another TA; its timer then returns it to unclaimed with the active request forgotten and its claim cleared |
| TaSession.WinningClaimIsConfirmed | code_teaching_assistant/main.py:65-70 | a waiting TA moves to claimed on its own confirmation and keeps its registry and active request |
| TaSession.FailedClaimLeavesLocalMark | code_teaching_assistant/main.py:337-350 | after a failed claim publish, the request stays marked as claimed by this TA while the machine is unclaimed, and pressing claim again changes nothing |
| SetupConfig.NextVacantNumber | setup/main.py:101-108 | for numbers in -99..100, where a number n <= 0 marks the slot of n + 100 as negative list indices do: -1 exactly when all of 1..100 read as used; otherwise the smallest one that reads as unused |
| SetupConfig.GetNextVacantModuleNumber | setup/main.py:101-108 | the smallest module number in 1..100 no module uses, or -1 exactly when all are used |
| SetupConfig.GetNextVacantGroupNumber | setup/main.py:123-130 | the smallest group number in 1..100 no group uses, or -1 exactly when all are used |
| SetupConfig.GetNextVacantTableNumber | setup/main.py:132-139 | for tables in -99..100: the smallest table in 1..100 that reads as taken neither by a group at it nor by one at the table 100 below it, or -1 exactly when all read as taken; with all tables in 1..100, the smallest table no group sits at |
| SetupConfig.GetModule | setup/main.py:80-84 | none exactly when no module has the number; otherwise the first module with it |
| SetupConfig.GetGroup | setup/main.py:110-114 | none exactly when no group has the number; otherwise the first group with it |
| SetupConfig.SwapModule | setup/main.py:86-91 | only the first module with the old number is replaced; no match, no change |
| SetupConfig.SwapGroup | setup/main.py:116-121 | only the first group with the old number is replaced; no match, no change |
| SetupConfig.DeleteModule | setup/main.py:185-186 | exactly the modules with another number survive; no match, no change |
| SetupConfig.DeleteModuleConcat | setup/main.py:185-186 | deletion filters each part of a list separately, so survivors keep their order |
| SetupConfig.DeleteGroup | setup/main.py:274-275 | exactly the groups with another number survive; no match, no change |
| SetupConfig.DeleteGroupConcat | setup/main.py:274-275 | deletion filters each part of a list separately, so survivors keep their order |
| SetupConfig.ParseShowRoundTrip | setup/main.py:222-225 | a number's decimal spelling passes the numeric check and reads back as that number |
| SetupConfig.ModuleNumberTaken | setup/main.py:235-238 | a number counts as taken exactly when some module has it and it is not the number of the module being edited |
| SetupConfig.GroupNumberTaken | setup/main.py:320-323 | a number counts as taken exactly when some group has it and it is not the number of the group being edited |
| SetupConfig.SubmitModule | setup/main.py:218-244 | the first failing check is reported (non-numeric number, number outside 1..100, non-numeric task count, empty name, number taken); an entry passing every check is accepted; an accepted entry is appended, or replaces the edited module in place |
| SetupConfig.SubmitModuleKeepsNumbersDistinct | setup/main.py:235-242 | accepted module submissions keep module numbers pairwise distinct and within 1..100 |
| SetupConfig.SubmitThenGetModule | setup/main.py:239-242 | after an accepted add, or an accepted edit of an existing module, looking the number up finds exactly the submitted module |
| SetupConfig.SubmitGroup | setup/main.py:307-329 | the first failing check is reported (non-numeric number, number outside 1..100, non-numeric table, number taken); an entry passing every check is accepted; an accepted entry is appended, or replaces the edited group in place |
| SetupConfig.SubmitGroupKeepsNumbersDistinct | setup/main.py:320-327 | accepted group submissions keep group numbers pairwise distinct and within 1..100 |
| SetupConfig.SubmitGroupAcceptsTableOutOfRange | setup/main.py:316-327 | the group form as written accepts table 101, leaving a table the table suggestion cannot handle |
| SetupConfig.SubmitGroupAcceptsTableZero | setup/main.py:316-327 | the group form as written accepts table 0, after which table 100 reads as taken in the table suggestion although no group sits there; the checked form refuses it |
| SetupConfig.SubmitGroupChecked | setup/main.py:307-329 | the group form with a table range check: an out-of-range table is refused, and otherwise the result is that of the form as written |
| SetupConfig.SubmitGroupCheckedKeepsTablesInRange | setup/main.py:132-139 | with that check, accepted group submissions keep every table in 1..100, which the table suggestion requires |

## Left out

- Window scenes, layout and redraws are not modelled; each redraw is a no-op. code_student/main.py is not part of this model: it is interface code plus a login stub.
- The message-bus client is not modelled: connecting, subscribing, the network thread and payload string handling. The message codec (`parse_*`, `RequestWrapper`) is not part of this model. Messages arrive already decoded (`TaClient.Message`), and every publish is a boolean input.
- common/io_utils.py and the editor's JSON import and persist functions are file input/output and are not modelled. So is the `persist_modules` call that group deletion makes.
- The machine driver, real-time timers and threads are not modelled. Timer `t` is one more trigger, and timer start and stop actions change nothing in the session. A bus message handled in the middle of another event's effects is not modelled, since events are handled one at a time. Because of that, a second message overwriting a pending hand-over field before the machine reads it is not modelled either.
- Logging entry actions (`stm_log`) and the notification sound are left out: they have no effect on state.
- Request ids from `uuid1` and times from `datetime.now` are parameters. The time is an integer for the queue and a string on the common record.
- The feedback statistics of the task page use floating point and rounding, and are not modelled.
- common/mqtt_utils.py (broker and topic constants) and common/feedback.py are not part of this model. Feedback is a record with the five fields the client reads.
- TaClient.Ui: the active request is a reference to a registry entry in the source, so mutating one mutates the other. The model identifies the active request with the first registry entry that has the same id, and updates that entry. A request page likewise acts on the registered entry with its id; the detached copy a page keeps after its request is cancelled is passed in with the button press.
- QueueManager.RunRanked: the local position is the own request's rank only if every new request carries a later time than all queued entries. Requests from different clients can arrive late or with equal times, and then the source's count, taken once at insertion, differs from the rank (`QueueManager.LateAddBreaksRank`).
- TaSession.Perform: an add signal with no pending request changes nothing. The source would append `None` to the registry, which cannot happen when every add signal follows its message.
- QueueManager.OnCancel: requires that the local position is set exactly when an active request is. The source would fail on `None - 1` otherwise. Every reachable state satisfies this (`QueueManager.Run`).
- SetupConfig.NextVacantNumber: requires every number to be in -99..100. Any other number makes the source's list indexing raise an error, which is not modelled. The group form lets such a table through (see Findings).
- SetupConfig.GetNextVacantModuleNumber: requires module numbers in 1..100, as does SetupConfig.GetNextVacantGroupNumber for group numbers. The forms store no other numbers (`SetupConfig.SubmitModuleKeepsNumbersDistinct`, `SetupConfig.SubmitGroupKeepsNumbersDistinct`).
- CourseModules.SetFinishStatus: the index is a natural number. The source's negative-index behaviour is not modelled.
- SetupConfig.IsNumeric: accepts ASCII digits only. The source's `isnumeric` also accepts other Unicode digit characters.
- TaClient.RequestResolved: requires an active request, as does TaClient.TimerExpired. The source dereferences it unconditionally. The session invariant guarantees it whenever the machine runs either action.
- The form error kinds name what is checked. The group form's label texts repeat the module form's texts; the texts themselves are not modelled.

## Findings

| source | as written | input that shows it | evidently intended | confidence | as-written member | corrected member |
|---|---|---|---|---|---|---|
| setup/main.py:316-327 | the group form checks only that the table is numeric, but the table suggestion marks slot `table - 1` of a 100-slot list | add group "1" at table "101", then open the add-group form: the suggestion indexes slot 100, which is past the list; or add table "0": slot -1 marks table 100 as taken | tables limited to 1..100 like the numbers | medium; not executed | SetupConfig.SubmitGroupAcceptsTableOutOfRange | SetupConfig.SubmitGroupCheckedKeepsTablesInRange |
| code_teaching_assistant/main.py:337-346 | the claim button marks the request as claimed by this TA before publishing, and keeps the mark when the publish fails | press Claim while the bus refuses the message, then press the button again: it now sends cancel-claim, which the unclaimed machine discards, so this TA cannot claim the request any more | the mark is kept only for an accepted claim | medium; not executed | TaClient.RefusedClaimBlocksRetry | TaClient.RevertedClaimAllowsRetry |
