/**
 The two finite state machines behind uplift governance: the edge tables of waves and
 exceptions, who may drive each edge, and the separation-of-duties check on approvals.
*/
module UpliftStateMachine {
  import opened Prelude

  type Subject = string

  datatype WaveState = Draft | Submitted | Approved | Rejected | Cancelled | Invalidated

  datatype ExceptionState = PendingReview | ExceptionApproved | ExceptionRejected | Expired | Withdrawn

  datatype ActorKind = Drafter | Approver | System | Filer | Anyone

  datatype DecideError = TransitionForbidden | ActorKindForbidden | SelfApprovalForbidden

  datatype Transition<+S> =
    Transition(fromState: S, toState: S, actorKind: ActorKind, actorSubject: Subject, isSodEdge: bool)

  const WAVE_EDGES: map<(WaveState, WaveState), set<ActorKind>> :=
    map[
      (Draft, Submitted) := {Drafter},
      (Draft, Cancelled) := {Drafter},
      (Draft, Invalidated) := {System},
      (Submitted, Approved) := {Approver},
      (Submitted, Rejected) := {Approver, Drafter},
      (Submitted, Cancelled) := {Drafter},
      (Submitted, Invalidated) := {System}
    ]

  const WAVE_SOD_EDGES: set<(WaveState, WaveState)> := {(Submitted, Approved)}

  const WAVE_TERMINAL: set<WaveState> := {Approved, Rejected, Cancelled, Invalidated}

  const EXCEPTION_EDGES: map<(ExceptionState, ExceptionState), set<ActorKind>> :=
    map[
      (PendingReview, ExceptionApproved) := {Approver},
      (PendingReview, ExceptionRejected) := {Approver},
      (PendingReview, Withdrawn) := {Filer},
      (ExceptionApproved, Expired) := {System},
      (ExceptionApproved, Withdrawn) := {Filer}
    ]

  const EXCEPTION_SOD_EDGES: set<(ExceptionState, ExceptionState)> := {(PendingReview, ExceptionApproved)}

  /** The number of transitions a wave in state `s` can still make, at most. */
  function WaveRank(s: WaveState): nat {
    match s
    case Draft => 2
    case Submitted => 1
    case _ => 0
  }

  /** The number of transitions an exception in state `s` can still make, at most. */
  function ExceptionRank(s: ExceptionState): nat {
    match s
    case PendingReview => 2
    case ExceptionApproved => 1
    case _ => 0
  }

  function Decide<S(==)>(edges: map<(S, S), set<ActorKind>>, sod: set<(S, S)>,
                         from: S, to: S, kind: ActorKind, actor: Subject, owner: Subject)
    : (r: Result<Transition<S>, DecideError>)
    ensures r.Ok? ==> (from, to) in edges && ((from, to) in sod ==> actor != owner)
  {
    if (from, to) !in edges then Err(TransitionForbidden)
    else if kind !in edges[(from, to)] then Err(ActorKindForbidden)
    else
      var isSod := (from, to) in sod;
      if isSod && actor == owner then Err(SelfApprovalForbidden)
      else Ok(Transition(from, to, kind, actor, isSod))
  }

  /** Validates a wave move; the contract says what a success guarantees to the caller. */
  function WaveDecide(from: WaveState, to: WaveState, kind: ActorKind, actor: Subject, drafter: Subject)
    : (r: Result<Transition<WaveState>, DecideError>)
    ensures r.Ok? ==> r.value.fromState == from && r.value.toState == to && r.value.actorSubject == actor
    ensures r.Ok? ==> WaveRank(to) < WaveRank(from) && from !in WAVE_TERMINAL
    ensures r.Ok? && to == Approved ==> from == Submitted && kind == Approver && actor != drafter
    ensures from in WAVE_TERMINAL ==> r == Err(TransitionForbidden)
  {
    Decide(WAVE_EDGES, WAVE_SOD_EDGES, from, to, kind, actor, drafter)
  }

  /** Validates an exception move; the contract says what a success guarantees to the caller. */
  function ExceptionDecide(from: ExceptionState, to: ExceptionState, kind: ActorKind, actor: Subject, filer: Subject)
    : (r: Result<Transition<ExceptionState>, DecideError>)
    ensures r.Ok? ==> r.value.fromState == from && r.value.toState == to && r.value.actorSubject == actor
    ensures r.Ok? ==> ExceptionRank(to) < ExceptionRank(from)
    ensures r.Ok? && to == ExceptionApproved ==> from == PendingReview && kind == Approver && actor != filer
  {
    Decide(EXCEPTION_EDGES, EXCEPTION_SOD_EDGES, from, to, kind, actor, filer)
  }

  /** The declared terminal wave states are exactly the states that no actor can leave. */
  lemma WaveTerminalIffStuck(s: WaveState, drafter: Subject)
    ensures s in WAVE_TERMINAL <==>
            forall to, kind, actor :: WaveDecide(s, to, kind, actor, drafter).Err?
  {
    if s == Draft {
      assert WaveDecide(s, Submitted, Drafter, drafter, drafter).Ok?;
    } else if s == Submitted {
      assert WaveDecide(s, Cancelled, Drafter, drafter, drafter).Ok?;
    }
  }

  /** An exception is stuck exactly when it is rejected, expired or withdrawn; approval is live. */
  lemma ExceptionStuckIff(s: ExceptionState, filer: Subject)
    ensures s in {ExceptionRejected, Expired, Withdrawn} <==>
            forall to, kind, actor :: ExceptionDecide(s, to, kind, actor, filer).Err?
  {
    if s == PendingReview || s == ExceptionApproved {
      assert ExceptionDecide(s, Withdrawn, Filer, filer, filer).Ok?;
    }
  }

  /**
   Nobody approves their own: the drafter of a submitted wave can reject it or cancel it but never
   approve it, and the filer of a pending exception can withdraw it but never approve it.
  */
  lemma DrafterNeverApproves(from: WaveState, pending: ExceptionState, kind: ActorKind, drafter: Subject,
                             filer: Subject)
    ensures WaveDecide(from, Approved, kind, drafter, drafter).Err?
    ensures ExceptionDecide(pending, ExceptionApproved, kind, filer, filer).Err?
    ensures ExceptionDecide(PendingReview, Withdrawn, Filer, filer, filer).Ok?
    ensures WaveDecide(Submitted, Rejected, Drafter, drafter, drafter).Ok?
    ensures WaveDecide(Submitted, Cancelled, Drafter, drafter, drafter).Ok?
  {
  }
}
