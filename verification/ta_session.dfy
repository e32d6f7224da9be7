/** One TA client as a whole: the claim machine, the registry it drives, and the hand-over
    fields through which the bus client passes message contents to the machine's effects
    (code_teaching_assistant/main.py with code_teaching_assistant/stm_utils.py). Each event
    is dispatched to completion before the next, as the single machine driver does. */
module TaSession {
  import opened Wrappers
  import opened HelpRequests
  import TaMachine
  import opened TaClient

  datatype Session = Session(
    machine: TaMachine.State,
    ui: Ui,
    loggedInTa: Option<string>,
    toAdd: Option<HelpRequest>,
    toRemove: Option<Id>,
    incomingFeedback: seq<Feedback>)

  /** The client as constructed: the machine is started and the bus client subscribed
      before anyone logs in, so nobody is logged in yet and nothing has arrived. */
  function Launch(): (s: Session)
    ensures s.machine == TaMachine.InitialState
    ensures s.ui.helpRequests == [] && s.ui.active == None && s.ui.feedbackResponses == []
    ensures s.loggedInTa == None && s.ui.loggedInUser == ""
    ensures s.toAdd == None && s.toRemove == None && s.incomingFeedback == []
  {
    Session(TaMachine.InitialState, Ui([], None, [], ""), None, None, None, [])
  }

  /** While a claim is pending or held there is an active request to resolve or release. */
  ghost predicate Inv(s: Session)
  {
    s.machine != TaMachine.Unclaimed ==> s.ui.active.Some?
  }

  /** Runs one machine action against the session. Timer start/stop are the driver's
      business and change nothing here. */
  function Perform(s: Session, a: TaMachine.Action, published: bool): (s': Session)
    requires (a == TaMachine.StmTimerExpired || a == TaMachine.StmRequestResolved) ==> s.ui.active.Some?
    ensures s'.machine == s.machine && s'.loggedInTa == s.loggedInTa && s'.ui.loggedInUser == s.ui.loggedInUser
    ensures a.StartTimer? || a.StopTimer? ==> s' == s
    ensures a == TaMachine.StmTimerExpired ==>
      s'.ui.active == None && s'.ui.helpRequests == ClearClaim(s.ui.helpRequests, s.ui.active.value.id)
    ensures a == TaMachine.StmRequestResolved && !published ==> s' == s
    ensures a == TaMachine.StmRequestResolved && published ==>
      s'.ui.active == None && s'.ui.helpRequests == RemoveRequest(s.ui.helpRequests, s.ui.active.value.id)
    ensures a == TaMachine.StmCancelClaim && (s.ui.active.None? || !published) ==> s' == s
    ensures a == TaMachine.StmCancelClaim && s.ui.active.Some? && published ==>
      s'.ui.active == None && s'.ui.helpRequests == ClearClaim(s.ui.helpRequests, s.ui.active.value.id)
    ensures a == TaMachine.StmRecHelpReq && s.toAdd.Some? ==>
      s'.ui.helpRequests == s.ui.helpRequests + [s.toAdd.value] && s'.ui.active == s.ui.active
    ensures a == TaMachine.StmRemHelpReq && s.toRemove.Some? ==>
      s'.ui.helpRequests == RemoveRequest(s.ui.helpRequests, s.toRemove.value) && s'.ui.active == s.ui.active
    ensures a == TaMachine.StmReceiveFeedback && |s.incomingFeedback| > 0 ==>
      && s'.incomingFeedback == s.incomingFeedback[..|s.incomingFeedback| - 1]
      && s.incomingFeedback[|s.incomingFeedback| - 1] in s'.ui.feedbackResponses
      && s'.ui.helpRequests == s.ui.helpRequests && s'.ui.active == s.ui.active
  {
    match a
    case StartTimer(_, _) => s
    case StopTimer(_) => s
    case StmTimerExpired => s.(ui := TimerExpired(s.ui))
    case StmRequestResolved => s.(ui := RequestResolved(s.ui, published))
    case StmCancelClaim => s.(ui := CancelClaim(s.ui, published))
    case StmReceiveFeedback =>
      var r := ReceiveFeedback(s.ui, s.incomingFeedback);
      ReceivedFeedbackIsStored(s.ui, s.incomingFeedback);
      s.(ui := r.0, incomingFeedback := r.1)
    case StmRecHelpReq =>
      (match s.toAdd
       case Some(req) => s.(ui := RecHelpReq(s.ui, req))
       case None => s)
    case StmRemHelpReq => s.(ui := RemHelpReq(s.ui, s.toRemove))
  }

  /** Sends a trigger to the machine and runs what the step asks for. */
  function Dispatch(s: Session, t: TaMachine.Trigger, published: bool): (s': Session)
    requires Inv(s)
    requires t == TaMachine.ClaimButton ==> s.ui.active.Some?
    ensures Inv(s')
    ensures TaMachine.Step(s.machine, t).None? ==> s' == s
    ensures TaMachine.Step(s.machine, t).Some? ==> s'.machine == TaMachine.Step(s.machine, t).value.0
    ensures match TaMachine.Step(s.machine, t)
      case None => true
      case Some((m', acts)) =>
        && (acts == [] ==> s' == s.(machine := m'))
        && (|acts| == 1 ==> s' == Perform(s, acts[0], published).(machine := m'))
    ensures s'.loggedInTa == s.loggedInTa && s'.ui.loggedInUser == s.ui.loggedInUser
  {
    match TaMachine.Step(s.machine, t)
    case None => s
    case Some((m', acts)) =>
      var s1 := if |acts| == 0 then s else Perform(s, acts[0], published);
      s1.(machine := m')
  }

  /** What can happen to a TA client. A button of a help-request page carries the request
      the page was drawn for; the log-in button carries the name typed in. */
  datatype Event =
    | Deliver(msg: Message)
    | ClaimClicked(page: HelpRequest)
    | ResolveClicked(page: HelpRequest)
    | TimerFired
    | LoginClicked(name: string)
    | LogoutClicked

  /** Handles one event to completion. `published` is the bus's answer to the one publish
      the event may cause (the claim, or the resolution run on leaving `claimed`). Logging
      in only records the name; logging out only changes the window. */
  function Handle(s: Session, e: Event, published: bool): (s': Session)
    requires Inv(s)
    ensures Inv(s')
    ensures !e.LoginClicked? ==> s'.loggedInTa == s.loggedInTa && s'.ui.loggedInUser == s.ui.loggedInUser
    ensures e.LoginClicked? && e.name == "" ==> s' == s
    ensures e.LoginClicked? && e.name != "" ==>
      s' == s.(loggedInTa := Some(e.name), ui := s.ui.(loggedInUser := e.name))
    ensures e.LogoutClicked? ==> s' == s
  {
    match e
    case Deliver(msg) =>
      var s1 := (match msg
        case AddHelpRequest(req) => s.(toAdd := Some(req))
        case CancelHelpRequest(id) => s.(toRemove := Some(id))
        case SendFeedback(f) => s.(incomingFeedback := s.incomingFeedback + [f])
        case _ => s);
      (match Signal(msg, s.loggedInTa)
       case Some(t) => Dispatch(s1, t, published)
       case None => s1)
    case ClaimClicked(page) =>
      var r := OnClaim(s.ui, page, published);
      var s1 := s.(ui := r.0);
      (match r.1
       case Some(t) => Dispatch(s1, t, published)
       case None => s1)
    case ResolveClicked(page) =>
      var r := OnResolveClaim(s.ui, page);
      Dispatch(s.(ui := r.0), r.1, published)
    case TimerFired =>
      Dispatch(s, TaMachine.T, published)
    case LoginClicked(name) =>
      if name == "" then s
      else s.(loggedInTa := Some(name), ui := s.ui.(loggedInUser := name))
    case LogoutClicked => s
  }

  /** A new request is appended to the registry in every machine state, leaving the
      machine and the active request alone. */
  lemma DeliverAddAppends(s: Session, r: HelpRequest, p: bool)
    requires Inv(s)
    ensures var s' := Handle(s, Deliver(AddHelpRequest(r)), p);
      && s'.ui.helpRequests == s.ui.helpRequests + [r]
      && s'.machine == s.machine && s'.ui.active == s.ui.active
  {
    TaMachine.SignalsHandledEverywhere(s.machine);
  }

  /** A cancellation removes the first registry entry with its id in every machine state,
      leaving the machine and the active request alone. */
  lemma DeliverCancelRemoves(s: Session, id: Id, p: bool)
    requires Inv(s)
    ensures var s' := Handle(s, Deliver(CancelHelpRequest(id)), p);
      && s'.ui.helpRequests == RemoveRequest(s.ui.helpRequests, id)
      && s'.machine == s.machine && s'.ui.active == s.ui.active
  {
    TaMachine.SignalsHandledEverywhere(s.machine);
  }

  /** A feedback submission is stored in every machine state, and the inbox is left as it
      was before the submission arrived. */
  lemma DeliverFeedbackStores(s: Session, f: Feedback, p: bool)
    requires Inv(s)
    ensures var s' := Handle(s, Deliver(SendFeedback(f)), p);
      && f in s'.ui.feedbackResponses
      && s'.incomingFeedback == s.incomingFeedback
      && s'.machine == s.machine && s'.ui.helpRequests == s.ui.helpRequests
  {
    TaMachine.SignalsHandledEverywhere(s.machine);
    var s1 := s.(incomingFeedback := s.incomingFeedback + [f]);
    assert s1.incomingFeedback[..|s1.incomingFeedback| - 1] == s.incomingFeedback;
  }

  /** Resolving a claimed request leaves `claimed`. If the bus accepts the resolution, the
      request leaves the registry and nothing stays active; if not, the request stays,
      marked completed, as the active request. */
  lemma ResolveWhileClaimed(s: Session, page: HelpRequest)
    requires Inv(s) && s.machine == TaMachine.Claimed
    ensures var s' := Handle(s, ResolveClicked(page), true);
      && s'.machine == TaMachine.Unclaimed
      && s'.ui.active == None
      && s'.ui.helpRequests == RemoveRequest(s.ui.helpRequests, page.id)
    ensures var s' := Handle(s, ResolveClicked(page), false);
      && s'.machine == TaMachine.Unclaimed
      && s'.ui.active.Some? && s'.ui.active.value.id == page.id
      && s'.ui.active.value.status == Completed
  {
    var done := PageRequest(s.ui.helpRequests, page).(status := Completed);
    RemoveAfterWriteBack(s.ui.helpRequests, done);
    TaMachine.ResolveLeadsToUnclaimed();
    var s1 := s.(ui := OnResolveClaim(s.ui, page).0);
    assert s1.ui.active == Some(done) && s1.ui.helpRequests == WriteBack(s.ui.helpRequests, done);
  }

  /** Messages that arrive before anyone logs in stay in the registry after login. */
  lemma MessagesBeforeLoginAreKept(r: HelpRequest, name: string, p: bool)
    requires name != ""
    ensures var s1 := Handle(Launch(), Deliver(AddHelpRequest(r)), p);
      var s2 := Handle(s1, LoginClicked(name), p);
      && s2.ui.helpRequests == [r]
      && s2.loggedInTa == Some(name) && s2.ui.loggedInUser == name
  {
  }

  /** The only step into `claimed` is a confirmation taken while waiting. */
  lemma OnlyConfirmationEntersClaimed(m: TaMachine.State, t: TaMachine.Trigger)
    requires m != TaMachine.Claimed
    requires TaMachine.Step(m, t).Some? && TaMachine.Step(m, t).value.0 == TaMachine.Claimed
    ensures m == TaMachine.Waiting && t == TaMachine.SigAccClaim
  {
  }

  /** A TA reaches `claimed` only through a confirmation that names it. */
  lemma ClaimedOnlyByOwnConfirmation(s: Session, e: Event, published: bool)
    requires Inv(s)
    requires s.machine != TaMachine.Claimed && Handle(s, e, published).machine == TaMachine.Claimed
    ensures s.machine == TaMachine.Waiting
    ensures e.Deliver? && e.msg.ConfirmClaim? && s.loggedInTa == Some(e.msg.ta)
  {
    match e
    case Deliver(msg) =>
      var t := Signal(msg, s.loggedInTa);
      assert t.Some?;
      OnlyConfirmationEntersClaimed(s.machine, t.value);
    case ClaimClicked(page) =>
      var t := OnClaim(s.ui, page, published).1;
      assert t.Some?;
      OnlyConfirmationEntersClaimed(s.machine, t.value);
    case ResolveClicked(_) =>
      OnlyConfirmationEntersClaimed(s.machine, TaMachine.ResolveButton);
    case TimerFired =>
      OnlyConfirmationEntersClaimed(s.machine, TaMachine.T);
    case LoginClicked(_) =>
    case LogoutClicked =>
  }

  /** Two TAs race for one request and the requester confirms the other one: the loser,
      waiting on its claim, ignores the confirmation and falls back to `unclaimed` when
      its timer expires, with the claim cleared on its copy of the request. */
  lemma LosingClaimTimesOut(s: Session, winner: string, p1: bool, p2: bool)
    requires Inv(s) && s.machine == TaMachine.Waiting && s.loggedInTa != Some(winner)
    ensures Handle(s, Deliver(ConfirmClaim(winner)), p1) == s
    ensures var s2 := Handle(s, TimerFired, p2);
      && s2.machine == TaMachine.Unclaimed
      && s2.ui.active == None
      && s2.ui.helpRequests == ClearClaim(s.ui.helpRequests, s.ui.active.value.id)
  {
  }

  /** The winner, waiting on its claim, moves to `claimed` on its confirmation and keeps its
      active request and registry. */
  lemma WinningClaimIsConfirmed(s: Session, p: bool)
    requires Inv(s) && s.machine == TaMachine.Waiting && s.loggedInTa.Some?
    ensures var s1 := Handle(s, Deliver(ConfirmClaim(s.loggedInTa.value)), p);
      s1.machine == TaMachine.Claimed && s1.ui == s.ui
  {
  }

  /** A claim whose publish fails still leaves the request marked as claimed by this TA on
      its own copy, with the machine still `unclaimed`; pressing the button again then only
      fires `cancel_claim`, which `unclaimed` discards, so nothing changes any more. */
  lemma FailedClaimLeavesLocalMark(s: Session, page: HelpRequest, p: bool)
    requires Inv(s) && s.machine == TaMachine.Unclaimed
    requires FindRequest(s.ui.helpRequests, page.id) < |s.ui.helpRequests|
    requires s.ui.helpRequests[FindRequest(s.ui.helpRequests, page.id)].claimedBy.None?
    ensures var s1 := Handle(s, ClaimClicked(page), false);
      && s1.machine == TaMachine.Unclaimed
      && s1.ui.active == s.ui.active
      && s1.ui.helpRequests[FindRequest(s.ui.helpRequests, page.id)].claimedBy == Some(s.ui.loggedInUser)
      && FindRequest(s1.ui.helpRequests, page.id) == FindRequest(s.ui.helpRequests, page.id)
      && Handle(s1, ClaimClicked(page), p) == s1
  {
    var k := FindRequest(s.ui.helpRequests, page.id);
    var s1 := Handle(s, ClaimClicked(page), false);
    assert forall j :: 0 <= j < k ==> s1.ui.helpRequests[j] == s.ui.helpRequests[j];
  }
}
