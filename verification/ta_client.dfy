/** The TA client's request registry and the effects its state machine and buttons run
    (code_teaching_assistant/main.py). Publishing is a boolean input (did the bus accept
    the message); redrawing the window is a no-op. */
module TaClient {
  import opened Wrappers
  import opened HelpRequests
  import TaMachine

  /** A feedback submission, with the fields main.py reads (common/feedback.py is not part
      of this model). */
  datatype Feedback = Feedback(groupNumber: int, moduleNumber: int, taskNumber: int,
                               difficulty: string, comment: string)

  /** The part of the window object the effects read and write. `active` is the request
      this TA is working on; the source holds it as a reference to a registry entry, and
      the model identifies it with the first registry entry carrying the same id. */
  datatype Ui = Ui(
    helpRequests: seq<HelpRequest>,
    active: Option<HelpRequest>,
    feedbackResponses: seq<Feedback>,
    loggedInUser: string)

  /** Bus messages after decoding. Claim, resolve and cancel-claim messages also arrive on
      the queue topic and are ignored by the TA. */
  datatype Message =
    | AddHelpRequest(request: HelpRequest)
    | CancelHelpRequest(id: Id)
    | SendFeedback(feedback: Feedback)
    | ConfirmClaim(ta: string)
    | OtherRequest

  /** The signal a message makes the bus client send to the machine. A confirmation fires
      `sig_acc_claim` only when it names the logged-in TA. */
  function Signal(m: Message, loggedInTa: Option<string>): (t: Option<TaMachine.Trigger>)
    ensures t == Some(TaMachine.SigAccClaim) <==> m.ConfirmClaim? && loggedInTa == Some(m.ta)
    ensures m.ConfirmClaim? && loggedInTa != Some(m.ta) ==> t == None
    ensures t == Some(TaMachine.SigRecHelpReq) <==> m.AddHelpRequest?
    ensures t == Some(TaMachine.SigRemHelpReq) <==> m.CancelHelpRequest?
    ensures t == Some(TaMachine.SigFeedback) <==> m.SendFeedback?
    ensures m.OtherRequest? ==> t == None
  {
    match m
    case AddHelpRequest(_) => Some(TaMachine.SigRecHelpReq)
    case CancelHelpRequest(_) => Some(TaMachine.SigRemHelpReq)
    case SendFeedback(_) => Some(TaMachine.SigFeedback)
    case ConfirmClaim(ta) => if loggedInTa == Some(ta) then Some(TaMachine.SigAccClaim) else None
    case OtherRequest => None
  }

  // ---------------------------------------------------------------------------
  // Registry helpers
  // ---------------------------------------------------------------------------

  /** Index of the first request carrying `id`, or |rs| when there is none. */
  function FindRequest(rs: seq<HelpRequest>, id: Id): (k: nat)
    ensures k <= |rs|
    ensures k < |rs| ==> rs[k].id == id
    ensures forall j :: 0 <= j < k ==> rs[j].id != id
  {
    if |rs| == 0 then 0
    else if rs[0].id == id then 0
    else 1 + FindRequest(rs[1..], id)
  }

  /** Removing index k + 1 from a non-empty list is keeping its head and removing index k
      from its tail. */
  lemma ConsRemoveAt(rs: seq<HelpRequest>, k: nat)
    requires |rs| > 0
    ensures k + 1 < |rs| ==> rs[..k + 1] + rs[k + 2..] == [rs[0]] + (rs[1..][..k] + rs[1..][k + 1..])
  {
    if k + 1 < |rs| {
      assert rs[..k + 1] == [rs[0]] + rs[1..][..k];
      assert rs[k + 2..] == rs[1..][k + 1..];
    }
  }

  /** Deletes the first request carrying `id`, keeping the others in order. */
  function RemoveRequest(rs: seq<HelpRequest>, id: Id): (r: seq<HelpRequest>)
    ensures FindRequest(rs, id) == |rs| ==> r == rs
    ensures FindRequest(rs, id) < |rs| ==> r == rs[..FindRequest(rs, id)] + rs[FindRequest(rs, id) + 1..]
  {
    if |rs| == 0 then []
    else if rs[0].id == id then rs[1..]
    else
      ConsRemoveAt(rs, FindRequest(rs[1..], id));
      [rs[0]] + RemoveRequest(rs[1..], id)
  }

  /** Clears `claimedBy` on the first request carrying `id`. */
  function ClearClaim(rs: seq<HelpRequest>, id: Id): (r: seq<HelpRequest>)
    ensures |r| == |rs|
    ensures FindRequest(rs, id) == |rs| ==> r == rs
    ensures FindRequest(rs, id) < |rs| ==>
      r == rs[FindRequest(rs, id) := rs[FindRequest(rs, id)].(claimedBy := None)]
  {
    if |rs| == 0 then []
    else if rs[0].id == id then [rs[0].(claimedBy := None)] + rs[1..]
    else [rs[0]] + ClearClaim(rs[1..], id)
  }

  // ---------------------------------------------------------------------------
  // Effects the state machine runs
  // ---------------------------------------------------------------------------

  /** A new request joins the registry at the end; duplicates are not filtered. */
  function RecHelpReq(ui: Ui, request: HelpRequest): (ui': Ui)
    ensures |ui'.helpRequests| == |ui.helpRequests| + 1
    ensures ui'.helpRequests[..|ui.helpRequests|] == ui.helpRequests
    ensures ui'.helpRequests[|ui.helpRequests|] == request
    ensures ui'.(helpRequests := ui.helpRequests) == ui
  {
    ui.(helpRequests := ui.helpRequests + [request])
  }

  /** A cancelled request leaves the registry: only the first entry with its id goes, and an
      unknown (or absent) id changes nothing. */
  function RemHelpReq(ui: Ui, toRemove: Option<Id>): (ui': Ui)
    ensures toRemove.None? ==> ui' == ui
    ensures toRemove.Some? ==> ui'.helpRequests == RemoveRequest(ui.helpRequests, toRemove.value)
    ensures toRemove.Some? && FindRequest(ui.helpRequests, toRemove.value) < |ui.helpRequests| ==>
      |ui'.helpRequests| == |ui.helpRequests| - 1
    ensures ui'.(helpRequests := ui.helpRequests) == ui
  {
    match toRemove
    case None => ui
    case Some(id) => ui.(helpRequests := RemoveRequest(ui.helpRequests, id))
  }

  /** Exit action of `claimed`: publish the resolution of the active request and, only if
      the bus accepted it, forget the active request and drop it from the registry. The
      source dereferences the active request unconditionally. */
  function RequestResolved(ui: Ui, published: bool): (ui': Ui)
    requires ui.active.Some?
    ensures !published ==> ui' == ui
    ensures published ==> ui'.active == None
    ensures published ==> ui'.helpRequests == RemoveRequest(ui.helpRequests, ui.active.value.id)
    ensures ui'.feedbackResponses == ui.feedbackResponses && ui'.loggedInUser == ui.loggedInUser
  {
    if published then
      ui.(active := None, helpRequests := RemoveRequest(ui.helpRequests, ui.active.value.id))
    else ui
  }

  /** Effect of timer t expiring while waiting: the claim lapses and the active request is
      forgotten; nothing is published. */
  function TimerExpired(ui: Ui): (ui': Ui)
    requires ui.active.Some?
    ensures ui'.active == None
    ensures ui'.helpRequests == ClearClaim(ui.helpRequests, ui.active.value.id)
    ensures ui'.feedbackResponses == ui.feedbackResponses && ui'.loggedInUser == ui.loggedInUser
  {
    ui.(helpRequests := ClearClaim(ui.helpRequests, ui.active.value.id), active := None)
  }

  /** Releasing a claim: nothing without an active request; otherwise publish the release
      and, only if the bus accepted it, clear the claim and forget the active request. */
  function CancelClaim(ui: Ui, published: bool): (ui': Ui)
    ensures ui.active.None? || !published ==> ui' == ui
    ensures ui.active.Some? && published ==>
      && ui'.active == None
      && ui'.helpRequests == ClearClaim(ui.helpRequests, ui.active.value.id)
    ensures ui'.feedbackResponses == ui.feedbackResponses && ui'.loggedInUser == ui.loggedInUser
  {
    if ui.active.None? then ui
    else if published then
      ui.(helpRequests := ClearClaim(ui.helpRequests, ui.active.value.id), active := None)
    else ui
  }

  // ---------------------------------------------------------------------------
  // Feedback store
  // ---------------------------------------------------------------------------

  predicate SameTask(f: Feedback, moduleNumber: int, task: int)
  {
    f.moduleNumber == moduleNumber && f.taskNumber == task
  }

  predicate SameGroupTask(f: Feedback, groupNumber: int, moduleNumber: int, task: int)
  {
    f.groupNumber == groupNumber && f.moduleNumber == moduleNumber && f.taskNumber == task
  }

  /** Index of the first feedback for (moduleNumber, task), or -1. */
  function FeedbackIdxForModuleTask(fs: seq<Feedback>, moduleNumber: int, task: int): (i: int)
    ensures -1 <= i < |fs|
    ensures i == -1 <==> forall j :: 0 <= j < |fs| ==> !SameTask(fs[j], moduleNumber, task)
    ensures i >= 0 ==> SameTask(fs[i], moduleNumber, task) && forall j :: 0 <= j < i ==> !SameTask(fs[j], moduleNumber, task)
  {
    if |fs| == 0 then -1
    else if SameTask(fs[0], moduleNumber, task) then 0
    else
      var i := FeedbackIdxForModuleTask(fs[1..], moduleNumber, task);
      if i == -1 then -1 else i + 1
  }

  /** Index of the first feedback from `groupNumber` for (moduleNumber, task), or -1. */
  function FeedbackIdxForGroupModuleTask(fs: seq<Feedback>, groupNumber: int, moduleNumber: int, task: int): (i: int)
    ensures -1 <= i < |fs|
    ensures i == -1 <==> forall j :: 0 <= j < |fs| ==> !SameGroupTask(fs[j], groupNumber, moduleNumber, task)
    ensures i >= 0 ==>
      && SameGroupTask(fs[i], groupNumber, moduleNumber, task)
      && forall j :: 0 <= j < i ==> !SameGroupTask(fs[j], groupNumber, moduleNumber, task)
  {
    if |fs| == 0 then -1
    else if SameGroupTask(fs[0], groupNumber, moduleNumber, task) then 0
    else
      var i := FeedbackIdxForGroupModuleTask(fs[1..], groupNumber, moduleNumber, task);
      if i == -1 then -1 else i + 1
  }

  /** Upsert keyed by (module, task): replaces the first match, else appends. */
  function AddOrUpdateFeedbackResponse(fs: seq<Feedback>, feedback: Feedback): (r: seq<Feedback>)
    ensures |fs| <= |r| <= |fs| + 1
    ensures FeedbackIdxForModuleTask(fs, feedback.moduleNumber, feedback.taskNumber) == -1 ==> r == fs + [feedback]
    ensures var i := FeedbackIdxForModuleTask(fs, feedback.moduleNumber, feedback.taskNumber);
      i >= 0 ==> r == fs[i := feedback]
  {
    var i := FeedbackIdxForModuleTask(fs, feedback.moduleNumber, feedback.taskNumber);
    if i == -1 then fs + [feedback] else fs[i := feedback]
  }

  /** Signal handler for incoming feedback: takes the most recently received submission and
      upserts it keyed by (groupNumber, moduleNumber, task); nothing happens with an empty inbox. */
  function ReceiveFeedback(ui: Ui, incoming: seq<Feedback>): (r: (Ui, seq<Feedback>))
    ensures |incoming| == 0 ==> r == (ui, incoming)
    ensures |incoming| > 0 ==> r.1 == incoming[..|incoming| - 1]
    ensures |incoming| > 0 ==>
      var f := incoming[|incoming| - 1];
      var i := FeedbackIdxForGroupModuleTask(ui.feedbackResponses, f.groupNumber, f.moduleNumber, f.taskNumber);
      && (i == -1 ==> r.0.feedbackResponses == ui.feedbackResponses + [f])
      && (i >= 0 ==> r.0.feedbackResponses == ui.feedbackResponses[i := f])
    ensures r.0.(feedbackResponses := ui.feedbackResponses) == ui
  {
    if |incoming| == 0 then (ui, incoming)
    else
      var f := incoming[|incoming| - 1];
      var i := FeedbackIdxForGroupModuleTask(ui.feedbackResponses, f.groupNumber, f.moduleNumber, f.taskNumber);
      var fs := if i == -1 then ui.feedbackResponses + [f] else ui.feedbackResponses[i := f];
      (ui.(feedbackResponses := fs), incoming[..|incoming| - 1])
  }

  /** The received feedback ends up in the store. */
  lemma ReceivedFeedbackIsStored(ui: Ui, incoming: seq<Feedback>)
    ensures |incoming| > 0 ==> incoming[|incoming| - 1] in ReceiveFeedback(ui, incoming).0.feedbackResponses
  {
    if |incoming| > 0 {
      var f := incoming[|incoming| - 1];
      var r := ReceiveFeedback(ui, incoming).0.feedbackResponses;
      var k := FeedbackIdxForGroupModuleTask(ui.feedbackResponses, f.groupNumber, f.moduleNumber, f.taskNumber);
      if k == -1 {
        assert r[|ui.feedbackResponses|] == f;
      } else {
        assert r[k] == f;
      }
    }
  }

  /** No two stored feedbacks share a (module, task). */
  ghost predicate UniqueTasks(fs: seq<Feedback>)
  {
    forall i, j :: 0 <= i < j < |fs| ==> !SameTask(fs[j], fs[i].moduleNumber, fs[i].taskNumber)
  }

  /** The upsert keeps one feedback per (module, task), and the new one is stored. */
  lemma UpsertKeepsTasksUnique(fs: seq<Feedback>, feedback: Feedback)
    requires UniqueTasks(fs)
    ensures UniqueTasks(AddOrUpdateFeedbackResponse(fs, feedback))
    ensures feedback in AddOrUpdateFeedbackResponse(fs, feedback)
  {
    var r := AddOrUpdateFeedbackResponse(fs, feedback);
    var k := FeedbackIdxForModuleTask(fs, feedback.moduleNumber, feedback.taskNumber);
    forall i, j | 0 <= i < j < |r|
      ensures !SameTask(r[j], r[i].moduleNumber, r[i].taskNumber)
    {
      if k == -1 {
        if j == |fs| {
          assert r[i] == fs[i];
        }
      } else {
        if i == k {
          assert SameTask(fs[k], r[i].moduleNumber, r[i].taskNumber);
          assert r[j] == fs[j];
        } else if j == k {
          assert SameTask(fs[k], r[j].moduleNumber, r[j].taskNumber);
          assert r[i] == fs[i];
        }
      }
    }
    if k == -1 {
      assert r[|fs|] == feedback;
    } else {
      assert r[k] == feedback;
    }
  }

  /** No group has two stored feedbacks for the same (module, task). */
  ghost predicate UniqueGroupTasks(fs: seq<Feedback>)
  {
    forall i, j :: 0 <= i < j < |fs| ==>
      !SameGroupTask(fs[j], fs[i].groupNumber, fs[i].moduleNumber, fs[i].taskNumber)
  }

  /** Receiving feedback keeps one feedback per (group, module, task), which the task
      page's per-group statistics rely on, and the received feedback is stored. */
  lemma ReceiveKeepsGroupTasksUnique(ui: Ui, incoming: seq<Feedback>)
    requires UniqueGroupTasks(ui.feedbackResponses)
    ensures UniqueGroupTasks(ReceiveFeedback(ui, incoming).0.feedbackResponses)
    ensures |incoming| > 0 ==> incoming[|incoming| - 1] in ReceiveFeedback(ui, incoming).0.feedbackResponses
  {
    if |incoming| > 0 {
      var fs := ui.feedbackResponses;
      var f := incoming[|incoming| - 1];
      var r := ReceiveFeedback(ui, incoming).0.feedbackResponses;
      var k := FeedbackIdxForGroupModuleTask(fs, f.groupNumber, f.moduleNumber, f.taskNumber);
      forall i, j | 0 <= i < j < |r|
        ensures !SameGroupTask(r[j], r[i].groupNumber, r[i].moduleNumber, r[i].taskNumber)
      {
        if k == -1 {
          if j == |fs| {
            assert r[i] == fs[i];
          }
        } else {
          if i == k {
            assert SameGroupTask(fs[k], r[i].groupNumber, r[i].moduleNumber, r[i].taskNumber);
            assert r[j] == fs[j];
          } else if j == k {
            assert SameGroupTask(fs[k], r[j].groupNumber, r[j].moduleNumber, r[j].taskNumber);
            assert r[i] == fs[i];
          }
        }
      }
      ReceivedFeedbackIsStored(ui, incoming);
    }
  }

  // ---------------------------------------------------------------------------
  // Buttons of the help-request page
  // ---------------------------------------------------------------------------

  /** The request a help-request page acts on. The page holds a reference to the registry
      entry it was drawn for, so while an entry with its id is registered the page sees
      that entry; once a cancellation has removed it, the page keeps acting on its own,
      detached copy `page`. */
  function PageRequest(rs: seq<HelpRequest>, page: HelpRequest): (cur: HelpRequest)
    ensures cur.id == page.id
    ensures FindRequest(rs, page.id) < |rs| ==> cur == rs[FindRequest(rs, page.id)]
    ensures FindRequest(rs, page.id) == |rs| ==> cur == page
  {
    var k := FindRequest(rs, page.id);
    if k < |rs| then rs[k] else page
  }

  /** Changes made to the page's request reach the registry only while it is registered. */
  function WriteBack(rs: seq<HelpRequest>, x: HelpRequest): (r: seq<HelpRequest>)
    ensures |r| == |rs|
    ensures FindRequest(rs, x.id) < |rs| ==> r == rs[FindRequest(rs, x.id) := x]
    ensures FindRequest(rs, x.id) == |rs| ==> r == rs
  {
    var k := FindRequest(rs, x.id);
    if k < |rs| then rs[k := x] else rs
  }

  /** Overwriting the first entry with x's id by x keeps it the first entry with that id. */
  lemma FindAfterWriteBack(rs: seq<HelpRequest>, x: HelpRequest)
    requires FindRequest(rs, x.id) < |rs|
    ensures FindRequest(WriteBack(rs, x), x.id) == FindRequest(rs, x.id)
  {
    var k := FindRequest(rs, x.id);
    var w := WriteBack(rs, x);
    var k' := FindRequest(w, x.id);
    assert w[k].id == x.id;
    assert forall j :: 0 <= j < k ==> w[j] == rs[j];
  }

  /** Removing the page's request by id removes the same entry whether or not the page's
      changes were written back first. */
  lemma RemoveAfterWriteBack(rs: seq<HelpRequest>, x: HelpRequest)
    ensures RemoveRequest(WriteBack(rs, x), x.id) == RemoveRequest(rs, x.id)
  {
    var k := FindRequest(rs, x.id);
    if k < |rs| {
      FindAfterWriteBack(rs, x);
      var w := WriteBack(rs, x);
      assert w[..k] == rs[..k];
      assert w[k + 1..] == rs[k + 1..];
    }
  }

  /** The claim button of a help-request page. An unclaimed request is marked as claimed by
      this TA and confirmed before the claim is published; only an accepted publish makes
      it the active request and fires `claim_button`. A request already claimed only fires
      `cancel_claim`. */
  function OnClaim(ui: Ui, page: HelpRequest, published: bool): (r: (Ui, Option<TaMachine.Trigger>))
    ensures var k := FindRequest(ui.helpRequests, page.id);
      var cur := if k < |ui.helpRequests| then ui.helpRequests[k] else page;
      var mine := cur.(claimedBy := Some(ui.loggedInUser), status := Confirmed);
      && (cur.claimedBy.Some? ==> r == (ui, Some(TaMachine.CancelClaim)))
      && (cur.claimedBy.None? && k < |ui.helpRequests| ==> r.0.helpRequests == ui.helpRequests[k := mine])
      && (cur.claimedBy.None? && k == |ui.helpRequests| ==> r.0.helpRequests == ui.helpRequests)
      && (cur.claimedBy.None? && published ==> r.0.active == Some(mine) && r.1 == Some(TaMachine.ClaimButton))
      && (cur.claimedBy.None? && !published ==> r.0.active == ui.active && r.1 == None)
    ensures r.0.feedbackResponses == ui.feedbackResponses && r.0.loggedInUser == ui.loggedInUser
  {
    var cur := PageRequest(ui.helpRequests, page);
    if cur.claimedBy.None? then
      var mine := cur.(claimedBy := Some(ui.loggedInUser), status := Confirmed);
      var ui1 := ui.(helpRequests := WriteBack(ui.helpRequests, mine));
      if published then (ui1.(active := Some(mine)), Some(TaMachine.ClaimButton))
      else (ui1, None)
    else
      (ui, Some(TaMachine.CancelClaim))
  }

  /** The claim button as evidently intended: a claim the bus refused leaves the request
      untouched, so the button still offers the claim. */
  function OnClaimReverting(ui: Ui, page: HelpRequest, published: bool): (r: (Ui, Option<TaMachine.Trigger>))
    ensures !published ==> r.0 == ui
    ensures published ==> r == OnClaim(ui, page, published)
  {
    if published then OnClaim(ui, page, published)
    else
      var cur := PageRequest(ui.helpRequests, page);
      if cur.claimedBy.None? then (ui, None) else (ui, Some(TaMachine.CancelClaim))
  }

  /** As written, a claim the bus refused leaves the registered request marked as claimed
      by this TA, so pressing the button again only fires `cancel_claim`. */
  lemma RefusedClaimBlocksRetry(ui: Ui, page: HelpRequest, p: bool)
    requires FindRequest(ui.helpRequests, page.id) < |ui.helpRequests|
    requires ui.helpRequests[FindRequest(ui.helpRequests, page.id)].claimedBy.None?
    ensures var ui1 := OnClaim(ui, page, false).0;
      OnClaim(ui1, page, p) == (ui1, Some(TaMachine.CancelClaim))
  {
    var k := FindRequest(ui.helpRequests, page.id);
    var mine := ui.helpRequests[k].(claimedBy := Some(ui.loggedInUser), status := Confirmed);
    FindAfterWriteBack(ui.helpRequests, mine);
  }

  /** With the evidently intended claim button, a refused claim changes nothing and a
      retry that the bus accepts claims the request. */
  lemma RevertedClaimAllowsRetry(ui: Ui, page: HelpRequest)
    requires PageRequest(ui.helpRequests, page).claimedBy.None?
    ensures OnClaimReverting(ui, page, false) == (ui, None)
    ensures OnClaimReverting(OnClaimReverting(ui, page, false).0, page, true).1 == Some(TaMachine.ClaimButton)
  {
  }

  /** The resolve button of a help-request page: the page's request is marked completed,
      made the active request, and `resolve_button` is fired. */
  function OnResolveClaim(ui: Ui, page: HelpRequest): (r: (Ui, TaMachine.Trigger))
    ensures var k := FindRequest(ui.helpRequests, page.id);
      var cur := if k < |ui.helpRequests| then ui.helpRequests[k] else page;
      var done := cur.(status := Completed);
      && (k < |ui.helpRequests| ==> r.0.helpRequests == ui.helpRequests[k := done])
      && (k == |ui.helpRequests| ==> r.0.helpRequests == ui.helpRequests)
      && r.0.active == Some(done)
      && r.1 == TaMachine.ResolveButton
    ensures r.0.feedbackResponses == ui.feedbackResponses && r.0.loggedInUser == ui.loggedInUser
  {
    var done := PageRequest(ui.helpRequests, page).(status := Completed);
    (ui.(helpRequests := WriteBack(ui.helpRequests, done), active := Some(done)), TaMachine.ResolveButton)
  }
}
