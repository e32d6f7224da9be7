/** The student client's per-request state machine (code_student/stm_utils.py), read as
    a transition table keyed by (state, trigger). */
module StudentMachine {
  import opened Wrappers

  datatype State = Unsent | Sent | Confirmed

  datatype Trigger = Click | SigQueue | SigClaim | SigUnclaim | SigResolve

  /** The effect named on a transition, if any. */
  datatype Effect = NoEffect | UpdateQueuePosition | AcceptClaim | Unclaim | RejectClaim | ResolveRequest

  datatype Transition = Transition(source: State, trigger: Trigger, target: State, effect: Effect)

  /** Target of the initial transition. */
  const InitialState: State := Unsent

  /** The triggered transitions, in the order the table lists them. */
  const Table: seq<Transition> := [
    Transition(Unsent, Click, Sent, NoEffect),
    Transition(Sent, Click, Unsent, NoEffect),
    Transition(Sent, SigQueue, Sent, UpdateQueuePosition),
    Transition(Sent, SigClaim, Confirmed, AcceptClaim),
    Transition(Confirmed, SigUnclaim, Sent, Unclaim),
    Transition(Confirmed, SigClaim, Confirmed, RejectClaim),
    Transition(Confirmed, SigResolve, Unsent, ResolveRequest)
  ]

  /** No (source, trigger) pair is listed twice. */
  ghost predicate Deterministic(t: seq<Transition>)
  {
    forall i, j :: 0 <= i < j < |t| ==> (t[i].source, t[i].trigger) != (t[j].source, t[j].trigger)
  }

  lemma TableDeterministic()
    ensures Deterministic(Table)
  {
  }

  /** One step of the machine: the transition the table holds for (s, t), or None when the
      trigger has no transition in that state and is discarded. */
  function Step(s: State, t: Trigger): (r: Option<(State, Effect)>)
    ensures r.Some? ==> Transition(s, t, r.value.0, r.value.1) in Table
    ensures r.None? ==> forall i :: 0 <= i < |Table| ==> (Table[i].source, Table[i].trigger) != (s, t)
  {
    match (s, t)
    case (Unsent, Click) => Some((Sent, NoEffect))
    case (Sent, Click) => Some((Unsent, NoEffect))
    case (Sent, SigQueue) => Some((Sent, UpdateQueuePosition))
    case (Sent, SigClaim) => Some((Confirmed, AcceptClaim))
    case (Confirmed, SigUnclaim) => Some((Sent, Unclaim))
    case (Confirmed, SigClaim) => Some((Confirmed, RejectClaim))
    case (Confirmed, SigResolve) => Some((Unsent, ResolveRequest))
    case _ => None
  }

  /** The state after a trigger; a discarded trigger leaves the state as it is. */
  function Next(s: State, t: Trigger): State
  {
    match Step(s, t)
    case Some((s', _)) => s'
    case None => s
  }

  /** The state after a sequence of triggers. */
  function Run(s: State, ts: seq<Trigger>): State
    decreases |ts|
  {
    if |ts| == 0 then s else Run(Next(s, ts[0]), ts[1..])
  }

  /** The effects a sequence of triggers performs, in order. */
  function Effects(s: State, ts: seq<Trigger>): seq<Effect>
    decreases |ts|
  {
    if |ts| == 0 then []
    else
      var rest := Effects(Next(s, ts[0]), ts[1..]);
      match Step(s, ts[0])
      case Some((_, e)) => if e == NoEffect then rest else [e] + rest
      case None => rest
  }

  /** `click` toggles between unsent and sent and does nothing once confirmed, so a
      confirmed request cannot be withdrawn by clicking. */
  lemma ClickToggles()
    ensures Step(Unsent, Click) == Some((Sent, NoEffect))
    ensures Step(Sent, Click) == Some((Unsent, NoEffect))
    ensures Step(Confirmed, Click) == None
  {
  }

  /** A queue update is taken only while sent, and keeps the state. */
  lemma QueueSignalOnlyWhenSent(s: State)
    ensures Step(s, SigQueue).Some? <==> s == Sent
    ensures Step(s, SigQueue).Some? ==> Step(s, SigQueue).value == (Sent, UpdateQueuePosition)
  {
  }

  /** The first claim is accepted and moves the request to confirmed; a claim arriving while
      confirmed is rejected and keeps the state; an unsent request ignores claims. */
  lemma FirstClaimWins(s: State)
    ensures Step(Sent, SigClaim) == Some((Confirmed, AcceptClaim))
    ensures Step(Confirmed, SigClaim) == Some((Confirmed, RejectClaim))
    ensures Step(s, SigClaim) == Some((Confirmed, AcceptClaim)) <==> s == Sent
    ensures Step(Unsent, SigClaim) == None
  {
  }

  /** Unclaiming returns a confirmed request to sent; resolving returns it to unsent. */
  lemma LeavingConfirmed(t: Trigger)
    ensures Step(Confirmed, SigUnclaim) == Some((Sent, Unclaim))
    ensures Step(Confirmed, SigResolve) == Some((Unsent, ResolveRequest))
    ensures Next(Confirmed, t) != Confirmed <==> t == SigUnclaim || t == SigResolve
  {
  }

  /** First claim wins over any interleaving: once confirmed, the request stays confirmed
      and accepts no further claim until it is unclaimed or resolved. */
  lemma {:induction false} ConfirmedUntilReleased(ts: seq<Trigger>)
    requires forall i :: 0 <= i < |ts| ==> ts[i] != SigUnclaim && ts[i] != SigResolve
    ensures Run(Confirmed, ts) == Confirmed
    ensures AcceptClaim !in Effects(Confirmed, ts)
    decreases |ts|
  {
    if |ts| > 0 {
      assert Next(Confirmed, ts[0]) == Confirmed;
      ConfirmedUntilReleased(ts[1..]);
    }
  }

  /** Every state can be reached from the initial one. */
  lemma AllStatesReachable(s: State)
    ensures exists ts: seq<Trigger> :: |ts| <= 2 && Run(InitialState, ts) == s
  {
    match s
    case Unsent => assert Run(InitialState, []) == Unsent;
    case Sent => assert Run(InitialState, [Click]) == Sent;
    case Confirmed => assert Run(InitialState, [Click, SigClaim]) == Confirmed;
  }
}
