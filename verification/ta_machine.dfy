/** The TA client's claim state machine (code_teaching_assistant/stm_utils.py): the
    triggered transitions, plus each state's entry and exit actions and the signals it
    handles without leaving. */
module TaMachine {
  import opened Wrappers

  datatype State = Unclaimed | Waiting | Claimed

  /** `T` is the expiry of timer `t`. */
  datatype Trigger = ClaimButton | T | SigAccClaim | ResolveButton | CancelClaim
                   | SigFeedback | SigRecHelpReq | SigRemHelpReq

  /** The actions the machine can ask its owner to run. Logging entry actions are left out. */
  datatype Action = StartTimer(timer: string, ms: nat) | StopTimer(timer: string)
                  | StmTimerExpired | StmRequestResolved | StmCancelClaim
                  | StmReceiveFeedback | StmRecHelpReq | StmRemHelpReq

  const TimerName: string := "t"
  /** How long a claim waits for its confirmation. */
  const ClaimWaitMs: nat := 500

  datatype Transition = Transition(source: State, trigger: Trigger, target: State, effect: seq<Action>)

  /** Target of the initial transition. */
  const InitialState: State := Unclaimed

  /** The triggered transitions, in the order the table lists them. There is no
      cancel_claim transition out of claimed, and no transition runs StmCancelClaim. */
  const Transitions: seq<Transition> := [
    Transition(Unclaimed, ClaimButton, Waiting, []),
    Transition(Waiting, T, Unclaimed, [StmTimerExpired]),
    Transition(Waiting, SigAccClaim, Claimed, [StopTimer(TimerName)]),
    Transition(Claimed, ResolveButton, Unclaimed, []),
    Transition(Waiting, CancelClaim, Unclaimed, []),
    Transition(Waiting, ResolveButton, Unclaimed, [])
  ]

  function Entry(s: State): seq<Action>
  {
    match s
    case Waiting => [StartTimer(TimerName, ClaimWaitMs)]
    case _ => []
  }

  function Exit(s: State): seq<Action>
  {
    match s
    case Claimed => [StmRequestResolved]
    case _ => []
  }

  /** Signals every state handles in place. */
  const Handlers: seq<(Trigger, Action)> := [
    (SigFeedback, StmReceiveFeedback),
    (SigRecHelpReq, StmRecHelpReq),
    (SigRemHelpReq, StmRemHelpReq)
  ]

  function HandlersOf(s: State): seq<(Trigger, Action)>
  {
    Handlers
  }

  ghost predicate Deterministic(ts: seq<Transition>)
  {
    forall i, j :: 0 <= i < j < |ts| ==> (ts[i].source, ts[i].trigger) != (ts[j].source, ts[j].trigger)
  }

  lemma TransitionsDeterministic()
    ensures Deterministic(Transitions)
  {
  }

  /** The first listed transition for (s, t). */
  function FindTransition(ts: seq<Transition>, s: State, t: Trigger): (r: Option<Transition>)
    ensures r.Some? ==> r.value in ts && r.value.source == s && r.value.trigger == t
    ensures r.None? <==> forall i :: 0 <= i < |ts| ==> (ts[i].source, ts[i].trigger) != (s, t)
  {
    if |ts| == 0 then None
    else if ts[0].source == s && ts[0].trigger == t then Some(ts[0])
    else
      var r := FindTransition(ts[1..], s, t);
      assert forall i :: 1 <= i < |ts| ==> ts[i] == ts[1..][i - 1];
      r
  }

  /** The action a state runs in place for signal t. */
  function FindHandler(hs: seq<(Trigger, Action)>, t: Trigger): (r: Option<Action>)
    ensures r.Some? ==> (t, r.value) in hs
    ensures r.None? <==> forall i :: 0 <= i < |hs| ==> hs[i].0 != t
  {
    if |hs| == 0 then None
    else if hs[0].0 == t then Some(hs[0].1)
    else
      var r := FindHandler(hs[1..], t);
      assert forall i :: 1 <= i < |hs| ==> hs[i] == hs[1..][i - 1];
      r
  }

  /** One run-to-completion step looked up in the tables: a triggered transition runs the
      source's exit actions, its effect and the target's entry actions; a signal the state
      handles runs its action in place; anything else is discarded (None). */
  function TableStep(s: State, t: Trigger): Option<(State, seq<Action>)>
  {
    match FindTransition(Transitions, s, t)
    case Some(tr) => Some((tr.target, Exit(s) + tr.effect + Entry(tr.target)))
    case None =>
      match FindHandler(HandlersOf(s), t)
      case Some(a) => Some((s, [a]))
      case None => None
  }

  /** Under a deterministic table, a listed transition is the one found. */
  lemma FindListed(ts: seq<Transition>, i: nat, s: State, t: Trigger)
    requires Deterministic(ts) && i < |ts| && ts[i].source == s && ts[i].trigger == t
    ensures FindTransition(ts, s, t) == Some(ts[i])
  {
    var r := FindTransition(ts, s, t);
    var j :| 0 <= j < |ts| && ts[j] == r.value;
    assert (ts[j].source, ts[j].trigger) == (ts[i].source, ts[i].trigger);
    assert j == i;
  }

  /** One step of the machine, as a case analysis with each transition's exit, effect and
      entry actions already combined; None means the trigger is discarded. */
  function Step(s: State, t: Trigger): (r: Option<(State, seq<Action>)>)
    ensures r.Some? ==> |r.value.1| <= 1
    ensures r.None? ==> Unlisted(s, t) && forall i :: 0 <= i < |HandlersOf(s)| ==> HandlersOf(s)[i].0 != t
  {
    match (s, t)
    case (Unclaimed, ClaimButton) => Some((Waiting, [StartTimer(TimerName, ClaimWaitMs)]))
    case (Waiting, T) => Some((Unclaimed, [StmTimerExpired]))
    case (Waiting, SigAccClaim) => Some((Claimed, [StopTimer(TimerName)]))
    case (Claimed, ResolveButton) => Some((Unclaimed, [StmRequestResolved]))
    case (Waiting, CancelClaim) => Some((Unclaimed, []))
    case (Waiting, ResolveButton) => Some((Unclaimed, []))
    case (_, SigFeedback) => Some((s, [StmReceiveFeedback]))
    case (_, SigRecHelpReq) => Some((s, [StmRecHelpReq]))
    case (_, SigRemHelpReq) => Some((s, [StmRemHelpReq]))
    case _ => None
  }

  /** No listed transition starts in s on t. */
  ghost predicate Unlisted(s: State, t: Trigger)
  {
    forall j :: 0 <= j < |Transitions| ==> (Transitions[j].source, Transitions[j].trigger) != (s, t)
  }

  /** The listed transitions one by one. */
  lemma TransitionsListed()
    ensures |Transitions| == 6
    ensures Transitions[0] == Transition(Unclaimed, ClaimButton, Waiting, [])
    ensures Transitions[1] == Transition(Waiting, T, Unclaimed, [StmTimerExpired])
    ensures Transitions[2] == Transition(Waiting, SigAccClaim, Claimed, [StopTimer(TimerName)])
    ensures Transitions[3] == Transition(Claimed, ResolveButton, Unclaimed, [])
    ensures Transitions[4] == Transition(Waiting, CancelClaim, Unclaimed, [])
    ensures Transitions[5] == Transition(Waiting, ResolveButton, Unclaimed, [])
  {
  }

  /** A transition found at index i yields its target with exit, effect and entry actions. */
  lemma StepViaListed(i: nat, s: State, t: Trigger)
    requires i < |Transitions| && Transitions[i].source == s && Transitions[i].trigger == t
    ensures TableStep(s, t) == Some((Transitions[i].target, Exit(s) + Transitions[i].effect + Entry(Transitions[i].target)))
  {
    TransitionsDeterministic();
    FindListed(Transitions, i, s, t);
  }

  lemma UnclaimedSteps(t: Trigger)
    ensures TableStep(Unclaimed, t) == Step(Unclaimed, t)
  {
    TransitionsListed();
    if t == ClaimButton {
      StepViaListed(0, Unclaimed, t);
      assert Exit(Unclaimed) + [] + Entry(Waiting) == [StartTimer(TimerName, ClaimWaitMs)];
    } else {
      assert Unlisted(Unclaimed, t);
    }
  }

  lemma WaitingSteps(t: Trigger)
    ensures TableStep(Waiting, t) == Step(Waiting, t)
  {
    TransitionsListed();
    match t
    case T =>
      StepViaListed(1, Waiting, t);
      assert Exit(Waiting) + [StmTimerExpired] + Entry(Unclaimed) == [StmTimerExpired];
    case SigAccClaim =>
      StepViaListed(2, Waiting, t);
      assert Exit(Waiting) + [StopTimer(TimerName)] + Entry(Claimed) == [StopTimer(TimerName)];
    case CancelClaim =>
      StepViaListed(4, Waiting, t);
      assert Exit(Waiting) + [] + Entry(Unclaimed) == [];
    case ResolveButton =>
      StepViaListed(5, Waiting, t);
      assert Exit(Waiting) + [] + Entry(Unclaimed) == [];
    case _ => assert Unlisted(Waiting, t);
  }

  lemma ClaimedSteps(t: Trigger)
    ensures TableStep(Claimed, t) == Step(Claimed, t)
  {
    TransitionsListed();
    if t == ResolveButton {
      StepViaListed(3, Claimed, t);
      assert Exit(Claimed) + [] + Entry(Unclaimed) == [StmRequestResolved];
    } else {
      assert Unlisted(Claimed, t);
    }
  }

  /** The step agrees with the lookup in the transition table and state table as written,
      for every state and trigger. */
  lemma StepFollowsTable(s: State, t: Trigger)
    ensures TableStep(s, t) == Step(s, t)
  {
    match s
    case Unclaimed => UnclaimedSteps(t);
    case Waiting => WaitingSteps(t);
    case Claimed => ClaimedSteps(t);
  }

  function Next(s: State, t: Trigger): State
  {
    match Step(s, t)
    case Some((s', _)) => s'
    case None => s
  }

  function Run(s: State, ts: seq<Trigger>): State
    decreases |ts|
  {
    if |ts| == 0 then s else Run(Next(s, ts[0]), ts[1..])
  }

  /** The actions a sequence of triggers runs, in order. */
  function Actions(s: State, ts: seq<Trigger>): seq<Action>
    decreases |ts|
  {
    if |ts| == 0 then []
    else
      var here := match Step(s, ts[0]) case Some((_, acts)) => acts case None => [];
      here + Actions(Next(s, ts[0]), ts[1..])
  }

  /** A claim starts only from unclaimed, moves to waiting and starts timer t for 500 ms. */
  lemma ClaimOnlyFromUnclaimed(s: State)
    ensures Step(s, ClaimButton).Some? <==> s == Unclaimed
    ensures Step(Unclaimed, ClaimButton) == Some((Waiting, [StartTimer(TimerName, ClaimWaitMs)]))
  {
  }

  /** Timer t fires only while waiting, back to unclaimed, running StmTimerExpired. */
  lemma TimerOnlyWhileWaiting(s: State)
    ensures Step(s, T).Some? <==> s == Waiting
    ensures Step(Waiting, T) == Some((Unclaimed, [StmTimerExpired]))
  {
  }

  /** A confirmation is accepted only while waiting; it moves to claimed and stops timer t. */
  lemma ConfirmOnlyWhileWaiting(s: State)
    ensures Step(s, SigAccClaim).Some? <==> s == Waiting
    ensures Step(Waiting, SigAccClaim) == Some((Claimed, [StopTimer(TimerName)]))
  {
  }

  /** Resolving leads to unclaimed from claimed (running the exit action
      StmRequestResolved) and from waiting (running nothing); unclaimed ignores it. */
  lemma ResolveLeadsToUnclaimed()
    ensures Step(Claimed, ResolveButton) == Some((Unclaimed, [StmRequestResolved]))
    ensures Step(Waiting, ResolveButton) == Some((Unclaimed, []))
    ensures Step(Unclaimed, ResolveButton) == None
  {
  }

  /** Cancelling a claim works only while waiting and runs nothing; claimed ignores it. */
  lemma CancelOnlyWhileWaiting(s: State)
    ensures Step(s, CancelClaim).Some? <==> s == Waiting
    ensures Step(Waiting, CancelClaim) == Some((Unclaimed, []))
    ensures Step(Claimed, CancelClaim) == None
  {
  }

  /** The three bus signals are handled in every state, in place. */
  lemma SignalsHandledEverywhere(s: State)
    ensures Step(s, SigFeedback) == Some((s, [StmReceiveFeedback]))
    ensures Step(s, SigRecHelpReq) == Some((s, [StmRecHelpReq]))
    ensures Step(s, SigRemHelpReq) == Some((s, [StmRemHelpReq]))
  {
  }

  /** Every step out of claimed runs StmRequestResolved first. */
  lemma LeavingClaimedResolves(t: Trigger)
    requires Step(Claimed, t).Some? && Step(Claimed, t).value.0 != Claimed
    ensures t == ResolveButton
    ensures Step(Claimed, t).value.1[0] == StmRequestResolved
  {
  }

  /** No step runs StmCancelClaim. */
  lemma StepNeverCancels(s: State, t: Trigger)
    ensures Step(s, t).Some? ==> StmCancelClaim !in Step(s, t).value.1
  {
  }

  /** Over any run, StmCancelClaim is never invoked: the handler is not wired in. */
  lemma {:induction false} CancelClaimNeverRuns(s: State, ts: seq<Trigger>)
    ensures StmCancelClaim !in Actions(s, ts)
    decreases |ts|
  {
    if |ts| > 0 {
      StepNeverCancels(s, ts[0]);
      CancelClaimNeverRuns(Next(s, ts[0]), ts[1..]);
    }
  }

  /** Once claimed, only resolve_button leaves: any run without it stays claimed and does
      not resolve. */
  lemma {:induction false} ClaimedUntilResolved(ts: seq<Trigger>)
    requires ResolveButton !in ts
    ensures Run(Claimed, ts) == Claimed
    ensures StmRequestResolved !in Actions(Claimed, ts)
    decreases |ts|
  {
    if |ts| > 0 {
      assert ts[0] != ResolveButton;
      ClaimedUntilResolved(ts[1..]);
    }
  }

  /** Every state can be reached from the initial one. */
  lemma AllStatesReachable(s: State)
    ensures exists ts: seq<Trigger> :: |ts| <= 2 && Run(InitialState, ts) == s
  {
    match s
    case Unclaimed => assert Run(InitialState, []) == Unclaimed;
    case Waiting =>
      assert Run(InitialState, [ClaimButton]) == Waiting;
    case Claimed =>
      assert Run(Waiting, [SigAccClaim]) == Claimed;
      assert Run(InitialState, [ClaimButton, SigAccClaim]) == Claimed;
  }
}
