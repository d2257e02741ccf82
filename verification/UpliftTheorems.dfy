/** What the invariants of uplift runs mean for waves, exceptions, devices and the audit log. */
module UpliftTheorems {
  import opened Prelude
  import opened UpliftStateMachine
  import opened UpliftGovernance
  import opened UpliftRuns

  // ---- devices -------------------------------------------------------------

  /**
   In every run a device waiting for approval sits in a submitted wave, and an approved device
   sits in an approved wave that somebody other than its drafter approved.
  */
  lemma ParkedDevicesAreBacked(actions: seq<Action>, d: DeviceId)
    requires d in Run(EMPTY, actions).db.lifecycle
    ensures var db := Run(EMPTY, actions).db;
            && (db.lifecycle[d] == ApprovalPending ==>
                  exists w :: w in db.waves && db.waves[w].state == Submitted && IsMember(db.waves[w].members, d))
            && (db.lifecycle[d] == UpliftApproved ==>
                  exists w :: w in db.waves && db.waves[w].state == Approved && IsMember(db.waves[w].members, d) &&
                              db.waves[w].approvedBy.Some? && db.waves[w].approvedBy.value != db.waves[w].draftedBy)
  {
    EveryRunIsSafe(actions);
    var db := Run(EMPTY, actions).db;
    if db.lifecycle[d] == ApprovalPending {
      assert HoldsPending(db, d);
    }
    if db.lifecycle[d] == UpliftApproved {
      assert HoldsApproval(db, d);
    }
  }

  /**
   In every run a device under an exception has an approved exception whose approver is not its
   filer, and no two exceptions for the same device and blocker are approved together.
  */
  lemma ExceptionsAreExclusiveAndBacked(actions: seq<Action>, d: DeviceId, x: ExceptionId, y: ExceptionId)
    ensures var db := Run(EMPTY, actions).db;
            && (d in db.lifecycle && db.lifecycle[d] == ExceptionGranted ==>
                  exists e :: e in db.exceptions && db.exceptions[e].device == d &&
                              db.exceptions[e].state == ExceptionApproved &&
                              db.exceptions[e].approvedBy.Some? &&
                              db.exceptions[e].approvedBy.value != db.exceptions[e].filedBy)
            && (x in db.exceptions && y in db.exceptions && x != y ==>
                  !BothApproved(db.exceptions[x], db.exceptions[y]))
  {
    EveryRunIsSafe(actions);
    var db := Run(EMPTY, actions).db;
    if d in db.lifecycle && db.lifecycle[d] == ExceptionGranted {
      assert HoldsException(db, d);
    }
  }

  /**
   Reverting the members of a wave undoes its submission exactly when none of them was already
   waiting for approval through another wave.
  */
  lemma RevertUndoesSubmitIff(lifecycle: map<DeviceId, Lifecycle>, members: seq<Member>)
    ensures var submitted := MoveMembers(lifecycle, members, ReadyForUplift, ApprovalPending);
            MoveMembers(submitted, members, ApprovalPending, ReadyForUplift) == lifecycle
            <==> !exists d :: d in lifecycle && IsMember(members, d) && lifecycle[d] == ApprovalPending
  {
    var submitted := MoveMembers(lifecycle, members, ReadyForUplift, ApprovalPending);
    var reverted := MoveMembers(submitted, members, ApprovalPending, ReadyForUplift);
    if d :| d in lifecycle && IsMember(members, d) && lifecycle[d] == ApprovalPending {
      assert reverted[d] == ReadyForUplift;
    }
  }

  /**
   A device may sit in two submitted waves. Rejecting one releases it although the other is still
   submitted, and approving the other afterwards does not move it any more.
  */
  lemma SharedDeviceIsReleasedEarly(db: Database, d: DeviceId, first: WaveId, second: WaveId,
                                    approver: Subject, citation: string)
    requires first in db.waves && second in db.waves && first != second
    requires db.waves[first].state == db.waves[second].state == Submitted
    requires IsMember(db.waves[first].members, d) && IsMember(db.waves[second].members, d)
    requires d in db.lifecycle && db.lifecycle[d] == ApprovalPending
    ensures var rejected := CommitWave(db, WaveTicket(Reject(citation), first, Submitted, approver));
            var approved := CommitWave(rejected, WaveTicket(Approve(citation), second, Submitted, approver));
            && rejected.waves[second].state == Submitted && rejected.lifecycle[d] == ReadyForUplift
            && approved.waves[second].state == Approved && approved.lifecycle[d] == ReadyForUplift
  {
  }

  // ---- waves ---------------------------------------------------------------

  lemma CommitMovesAlongEdges(db: Database, t: WaveTicket, w: WaveId)
    requires WaveTicketOk(db, t) && w in db.waves
    ensures w in CommitWave(db, t).waves
    ensures var before, after := db.waves[w], CommitWave(db, t).waves[w];
            && (before.state == after.state ||
                ((before.state, after.state) in WAVE_EDGES && WaveRank(after.state) < WaveRank(before.state)))
            && after.draftedBy == before.draftedBy && after.members == before.members
  {
  }

  /** Whatever a step does, the stored state of a wave stays put or follows one edge of the table. */
  lemma StoredMovesAreEdges(s: SystemState, a: Action, w: WaveId)
    requires TicketsOk(s) && w in s.db.waves
    ensures w in Step(s, a).db.waves
    ensures var before, after := s.db.waves[w].state, Step(s, a).db.waves[w].state;
            before == after || ((before, after) in WAVE_EDGES && WaveRank(after) < WaveRank(before))
    ensures Step(s, a).db.waves[w].draftedBy == s.db.waves[w].draftedBy
    ensures Step(s, a).db.waves[w].members == s.db.waves[w].members
  {
    match a
    case EndWave(c) => if c in s.waveTickets { CommitMovesAlongEdges(s.db, s.waveTickets[c], w); }
    case BeginWave(_, _, _, _) => LookingChangesNothing(s, a);
    case BeginException(_, _, _, _) => LookingChangesNothing(s, a);
    case BeginFiling(_, _, _) => LookingChangesNothing(s, a);
    case EndException(_) => ExceptionsLeaveWaves(s, a);
    case EndFiling(_, _) => ExceptionsLeaveWaves(s, a);
    case DraftWave(id, row, released) => DraftLeavesWaves(s.db, id, row, released, w);
    case _ => OtherWritersNeverPark(s, a);
  }

  /** The first half of any operation only reads. */
  lemma LookingChangesNothing(s: SystemState, a: Action)
    requires a.BeginWave? || a.BeginException? || a.BeginFiling?
    ensures Step(s, a).db == s.db
  {
  }

  lemma ExceptionsLeaveWaves(s: SystemState, a: Action)
    requires a.EndException? || a.EndFiling?
    ensures Step(s, a).db.waves == s.db.waves
  {
  }

  lemma DraftLeavesWaves(db: Database, id: WaveId, row: Wave, released: Option<WaveId>, w: WaveId)
    requires w in db.waves
    ensures w in Drafted(db, id, row, released).waves
    ensures var before, after := db.waves[w], Drafted(db, id, row, released).waves[w];
            after.state == before.state && after.draftedBy == before.draftedBy && after.members == before.members
  {
  }

  lemma {:induction false} RunKeepsInv(s: SystemState, actions: seq<Action>)
    requires Inv(s)
    ensures Inv(Run(s, actions))
  {
    if actions == [] {
    } else {
      RunKeepsInv(s, actions[..|actions| - 1]);
      StepKeepsInv(Run(s, actions[..|actions| - 1]), actions[|actions| - 1]);
    }
  }

  lemma RunKeepsTickets(s: SystemState, actions: seq<Action>)
    requires Inv(s)
    ensures TicketsOk(Run(s, actions))
  {
    RunKeepsInv(s, actions);
  }

  /** Along any continuation of a safe state a wave keeps its state or loses rank; terminal is final. */
  lemma {:induction false} RankNeverGrows(s: SystemState, actions: seq<Action>, w: WaveId)
    requires Inv(s) && w in s.db.waves
    ensures w in Run(s, actions).db.waves
    ensures var before, after := s.db.waves[w].state, Run(s, actions).db.waves[w].state;
            && (after == before || WaveRank(after) < WaveRank(before))
            && (before in WAVE_TERMINAL ==> after == before)
  {
    if actions == [] {
    } else {
      var most := actions[..|actions| - 1];
      RankNeverGrows(s, most, w);
      RunKeepsTickets(s, most);
      StoredMovesAreEdges(Run(s, most), actions[|actions| - 1], w);
    }
  }

  lemma WinnerLosesRank(s: SystemState, winner: Caller, loser: WaveTicket)
    requires TicketsOk(s) && winner in s.waveTickets && WaveTicketOk(s.db, loser)
    requires s.waveTickets[winner].wave == loser.wave && s.waveTickets[winner].read == loser.read
    requires WaveGuardHolds(s.db, s.waveTickets[winner])
    ensures Outranked(Step(s, EndWave(winner)).db, loser)
  {
    assert WaveTicketOk(s.db, s.waveTickets[winner]);
  }

  predicate Outranked(db: Database, loser: WaveTicket) {
    loser.wave in db.waves && WaveRank(db.waves[loser.wave].state) < WaveRank(ExpectedState(loser.op, loser.read))
  }

  lemma OutrankedNeverWins(s: SystemState, a: Action, loser: WaveTicket, actions: seq<Action>)
    requires Inv(s) && Outranked(Step(s, a).db, loser)
    ensures !WaveGuardHolds(Run(Step(s, a), actions).db, loser)
  {
    StepKeepsInv(s, a);
    RankNeverGrows(Step(s, a), actions, loser.wave);
  }

  /**
   Two callers decided from the same stored state of the same wave. Once one of them has won its
   guarded update, the other can never win, however long it waits and whatever happens meanwhile.
  */
  lemma OneWinnerPerStoredState(s: SystemState, winner: Caller, loser: WaveTicket, actions: seq<Action>)
    requires Inv(s) && winner in s.waveTickets && WaveTicketOk(s.db, loser)
    requires s.waveTickets[winner].wave == loser.wave && s.waveTickets[winner].read == loser.read
    requires WaveGuardHolds(s.db, s.waveTickets[winner])
    ensures !WaveGuardHolds(Run(Step(s, EndWave(winner)), actions).db, loser)
  {
    WinnerLosesRank(s, winner, loser);
    OutrankedNeverWins(s, EndWave(winner), loser, actions);
  }

  // ---- audit ---------------------------------------------------------------

  ghost function WaveMoves(audit: seq<AuditRow>, id: WaveId): nat {
    if audit == [] then 0
    else
      var row := audit[|audit| - 1];
      WaveMoves(audit[..|audit| - 1], id) + (if row.entity == WaveObject(id) && row.change.WaveMoved? then 1 else 0)
  }

  ghost function ExceptionMoves(audit: seq<AuditRow>, id: ExceptionId): nat {
    if audit == [] then 0
    else
      var row := audit[|audit| - 1];
      ExceptionMoves(audit[..|audit| - 1], id) +
        (if row.entity == ExceptionObject(id) && row.change.ExceptionMoved? then 1 else 0)
  }

  lemma {:induction false} WaveReplayBoundsMoves(audit: seq<AuditRow>, id: WaveId)
    ensures ReplayWave(audit, id).At? ==> WaveMoves(audit, id) + WaveRank(ReplayWave(audit, id).state) <= 2
    ensures ReplayWave(audit, id).NotSeen? ==> WaveMoves(audit, id) == 0
  {
    if audit == [] {
    } else {
      WaveReplayBoundsMoves(audit[..|audit| - 1], id);
    }
  }

  lemma {:induction false} ExceptionReplayBoundsMoves(audit: seq<AuditRow>, id: ExceptionId)
    ensures ReplayException(audit, id).At? ==>
              ExceptionMoves(audit, id) + ExceptionRank(ReplayException(audit, id).state) <= 2
    ensures ReplayException(audit, id).NotSeen? ==> ExceptionMoves(audit, id) == 0
  {
    if audit == [] {
    } else {
      ExceptionReplayBoundsMoves(audit[..|audit| - 1], id);
    }
  }

  /**
   In every run the audit rows of a wave, and of an exception, replay from their creation along
   legal edges to the current state of the row, in at most two transitions.
  */
  lemma AuditReplaysEveryRun(actions: seq<Action>, w: WaveId, e: ExceptionId)
    ensures var db := Run(EMPTY, actions).db;
            && (w in db.waves ==> ReplayWave(db.audit, w) == At(db.waves[w].state))
            && (e in db.exceptions ==> ReplayException(db.audit, e) == At(db.exceptions[e].state))
            && WaveMoves(db.audit, w) <= 2
            && ExceptionMoves(db.audit, e) <= 2
  {
    EveryRunIsSafe(actions);
    WaveReplayBoundsMoves(Run(EMPTY, actions).db.audit, w);
    ExceptionReplayBoundsMoves(Run(EMPTY, actions).db.audit, e);
  }

  /** The governance states that the audit log is about. */
  ghost predicate SameStates(db: Database, db': Database) {
    && db.waves.Keys == db'.waves.Keys && db.exceptions.Keys == db'.exceptions.Keys
    && (forall w :: w in db.waves ==> db'.waves[w].state == db.waves[w].state)
    && (forall e :: e in db.exceptions ==> db'.exceptions[e].state == db.exceptions[e].state)
  }

  /** `row` tells exactly what happened between the two tables, and nothing else happened. */
  ghost predicate Describes(row: AuditRow, db: Database, db': Database) {
    match row.entity
    case WaveObject(w) =>
      && db'.waves.Keys == db.waves.Keys + {w} && db'.exceptions == db.exceptions
      && (forall x :: x in db.waves && x != w ==> db'.waves[x].state == db.waves[x].state)
      && (match row.change
          case Created => w !in db.waves && db'.waves[w].state == Draft
          case WaveMoved(b, a) => w in db.waves && db.waves[w].state == b && db'.waves[w].state == a && a != b
          case ExceptionMoved(_, _) => false)
    case ExceptionObject(e) =>
      && db'.exceptions.Keys == db.exceptions.Keys + {e} && db'.waves == db.waves
      && (forall x :: x in db.exceptions && x != e ==> db'.exceptions[x] == db.exceptions[x])
      && (match row.change
          case Created => e !in db.exceptions && db'.exceptions[e].state == PendingReview
          case WaveMoved(_, _) => false
          case ExceptionMoved(b, a) =>
            e in db.exceptions && db.exceptions[e].state == b && db'.exceptions[e].state == a && a != b)
  }

  ghost predicate Audited(db: Database, db': Database) {
    if db'.audit == db.audit then SameStates(db, db')
    else
      && |db'.audit| == |db.audit| + 1
      && db'.audit[..|db.audit|] == db.audit
      && Describes(db'.audit[|db.audit|], db, db')
  }

  lemma CommitWaveIsAudited(db: Database, t: WaveTicket)
    requires WaveTicketOk(db, t)
    ensures Audited(db, CommitWave(db, t))
  {
  }

  lemma CommitExceptionIsAudited(db: Database, t: ExceptionTicket)
    requires ExceptionTicketOk(db, t)
    ensures Audited(db, CommitException(db, t))
  {
  }

  lemma DraftIsAudited(db: Database, id: WaveId, row: Wave, released: Option<WaveId>)
    ensures Audited(db, Drafted(db, id, row, released))
  {
  }

  lemma FilingIsAudited(db: Database, id: ExceptionId, row: UpliftException)
    requires row.state == PendingReview
    ensures Audited(db, InsertException(db, id, row))
  {
  }

  /** A successful transition writes exactly one row, the one that describes it; a failed one writes none. */
  lemma OneAuditRowPerTransition(s: SystemState, a: Action)
    requires TicketsOk(s)
    ensures Audited(s.db, Step(s, a).db)
  {
    match a
    case EndWave(c) => if c in s.waveTickets { CommitWaveIsAudited(s.db, s.waveTickets[c]); }
    case EndException(c) => if c in s.exceptionTickets { CommitExceptionIsAudited(s.db, s.exceptionTickets[c]); }
    case DraftWave(id, row, released) => DraftIsAudited(s.db, id, row, released);
    case EndFiling(c, id) => if c in s.filings { FilingIsAudited(s.db, id, s.filings[c]); }
    case BeginFiling(_, _, _) => assert Step(s, a).db == s.db;
    case BeginWave(_, _, _, _) => assert Step(s, a).db == s.db;
    case BeginException(_, _, _, _) => assert Step(s, a).db == s.db;
    case _ => OtherWritersNeverPark(s, a);
  }

  // ---- exceptions ----------------------------------------------------------

  /** Both pending or approved for the same blocker of the same device. */
  ghost predicate BothActive(e: UpliftException, f: UpliftException) {
    e.state in ACTIVE_EXCEPTION_STATES && f.state in ACTIVE_EXCEPTION_STATES && SameSlot(e, f)
  }

  ghost predicate OneActivePerBlocker(db: Database) {
    forall x, y | x in db.exceptions && y in db.exceptions && BothActive(db.exceptions[x], db.exceptions[y]) :: x == y
  }

  /** The insert of this step lands beside an active exception for the same blocker. */
  ghost predicate InsertsBesideActive(s: SystemState, a: Action) {
    && a.EndFiling? && a.caller in s.filings
    && a.exc !in s.db.exceptions && TableAccepts(s.filings[a.caller])
    && exists x :: x in s.db.exceptions && BothActive(s.db.exceptions[x], s.filings[a.caller])
  }

  lemma CommitKeepsExclusive(db: Database, t: ExceptionTicket)
    requires OneActivePerBlocker(db) && ExceptionTicketOk(db, t)
    ensures OneActivePerBlocker(CommitException(db, t))
  {
    var after := CommitException(db, t).exceptions;
    forall x, y | x in after && y in after && BothActive(after[x], after[y]) ensures x == y {
      assert BothActive(db.exceptions[x], db.exceptions[y]);
    }
  }

  lemma InsertKeepsExclusiveIff(db: Database, id: ExceptionId, row: UpliftException)
    requires OneActivePerBlocker(db) && id !in db.exceptions && TableAccepts(row) && row.state == PendingReview
    ensures OneActivePerBlocker(InsertException(db, id, row)) <==>
            !exists x :: x in db.exceptions && BothActive(db.exceptions[x], row)
  {
    var after := InsertException(db, id, row).exceptions;
    if x :| x in db.exceptions && BothActive(db.exceptions[x], row) {
      assert BothActive(after[x], after[id]) && x != id;
    }
  }

  /**
   Filing promises one active exception per device and blocker, but nothing guards its insert. Any
   step whatsoever keeps the promise, except exactly an insert beside an exception that became
   active after the filing had looked.
  */
  lemma ExclusiveFilingKeptIff(s: SystemState, a: Action)
    requires TicketsOk(s) && OneActivePerBlocker(s.db)
    ensures OneActivePerBlocker(Step(s, a).db) <==> !InsertsBesideActive(s, a)
  {
    match a
    case EndFiling(c, id) =>
      if c in s.filings && id !in s.db.exceptions && TableAccepts(s.filings[c]) {
        InsertKeepsExclusiveIff(s.db, id, s.filings[c]);
      }
    case EndException(c) => if c in s.exceptionTickets { CommitKeepsExclusive(s.db, s.exceptionTickets[c]); }
    case EndWave(_) =>
    case DraftWave(_, _, _) =>
    case BeginWave(_, _, _, _) =>
    case BeginException(_, _, _, _) =>
    case BeginFiling(_, _, _) =>
    case _ => OtherWritersNeverPark(s, a);
  }

  lemma RunSnoc(s: SystemState, actions: seq<Action>, a: Action)
    ensures Run(s, actions + [a]) == Step(Run(s, actions), a)
  {
    assert (actions + [a])[..|actions|] == actions;
  }

  ghost predicate ExclusiveAt(actions: seq<Action>, k: nat)
    requires k <= |actions|
  {
    OneActivePerBlocker(Run(EMPTY, actions[..k]).db)
  }

  ghost predicate InsertsBesideAt(actions: seq<Action>, k: nat)
    requires k < |actions|
  {
    InsertsBesideActive(Run(EMPTY, actions[..k]), actions[k])
  }

  /** At every point of the run at most one exception is active per device and blocker. */
  ghost predicate ExclusiveThroughout(actions: seq<Action>) {
    forall k :: 0 <= k <= |actions| ==> ExclusiveAt(actions, k)
  }

  ghost predicate NeverInsertsBeside(actions: seq<Action>) {
    forall k :: 0 <= k < |actions| ==> !InsertsBesideAt(actions, k)
  }

  lemma PrefixesAgree(actions: seq<Action>, a: Action)
    ensures forall k :: 0 <= k <= |actions| ==> ExclusiveAt(actions + [a], k) == ExclusiveAt(actions, k)
    ensures forall k :: 0 <= k < |actions| ==> InsertsBesideAt(actions + [a], k) == InsertsBesideAt(actions, k)
  {
    assert forall k :: 0 <= k <= |actions| ==> (actions + [a])[..k] == actions[..k];
    assert forall k :: 0 <= k < |actions| ==> (actions + [a])[k] == actions[k];
  }

  lemma ReachableTickets(actions: seq<Action>)
    ensures TicketsOk(Run(EMPTY, actions))
  {
    EveryRunIsSafe(actions);
  }

  lemma ExclusiveStepIff(most: seq<Action>, a: Action)
    requires ExclusiveAt(most, |most|)
    ensures ExclusiveAt(most + [a], |most| + 1) <==> !InsertsBesideAt(most + [a], |most|)
  {
    var all := most + [a];
    assert most[..|most|] == most && all[..|all|] == all && all[..|most|] == most && all[|most|] == a;
    RunSnoc(EMPTY, most, a);
    ReachableTickets(most);
    ExclusiveFilingKeptIff(Run(EMPTY, most), a);
  }

  /**
   Main result about filing: over every run of all callers and writers, at most one exception is
   pending or approved per device and blocker at every point, exactly when no insert of the run lands
   beside an exception that became active after the filing had looked.
  */
  lemma {:induction false} ExclusiveRunIff(actions: seq<Action>)
    ensures ExclusiveThroughout(actions) <==> NeverInsertsBeside(actions)
  {
    if actions == [] {
      assert actions[..0] == [];
    } else {
      var most, a := actions[..|actions| - 1], actions[|actions| - 1];
      ExclusiveRunIff(most);
      assert actions == most + [a];
      PrefixesAgree(most, a);
      if ExclusiveThroughout(most) {
        ExclusiveStepIff(most, a);
      } else {
        var k :| 0 <= k <= |most| && !ExclusiveAt(most, k);
        assert !ExclusiveAt(actions, k);
      }
    }
  }

  /** Every insert comes directly after the look of the same filing. */
  ghost predicate FilingsUndisturbed(actions: seq<Action>) {
    forall k :: 0 <= k < |actions| && actions[k].EndFiling? ==>
      k > 0 && actions[k - 1].BeginFiling? && actions[k - 1].caller == actions[k].caller
  }

  lemma FreshLookIsExclusive(s: SystemState, look: Action, insert: Action)
    requires look.BeginFiling? && insert.EndFiling? && look.caller == insert.caller
    ensures !InsertsBesideActive(Step(s, look), insert)
  {
    if DecideFiling(s.db, look.request, look.maxLifetime).Ok? {
      var row := FiledRow(look.request);
      assert forall x :: x in s.db.exceptions && BothActive(s.db.exceptions[x], row) ==>
               Conflicts(s.db.exceptions[x], row.device, row.blocker);
    }
  }

  /** So the promise holds throughout every run in which no filing is interrupted between its look and its insert. */
  lemma UndisturbedFilingsAreExclusive(actions: seq<Action>)
    requires FilingsUndisturbed(actions)
    ensures ExclusiveThroughout(actions)
  {
    forall k | 0 <= k < |actions| ensures !InsertsBesideAt(actions, k) {
      if actions[k].EndFiling? {
        assert actions[..k] == actions[..k - 1] + [actions[k - 1]];
        RunSnoc(EMPTY, actions[..k - 1], actions[k - 1]);
        FreshLookIsExclusive(Run(EMPTY, actions[..k - 1]), actions[k - 1], actions[k]);
      }
    }
    ExclusiveRunIff(actions);
  }

  /** Filing as one call is exactly the two steps of the runs, one directly after the other. */
  lemma FilingCallIsTwoSteps(s: SystemState, c: Caller, id: ExceptionId, q: FilingRequest, maxLifetime: nat)
    ensures var looked := Step(s, BeginFiling(c, q, maxLifetime));
            Step(looked, EndFiling(c, id)).db == FileException(s.db, id, q, maxLifetime)
  {
  }

  lemma RunTwo(s: SystemState, a: Action, b: Action)
    ensures Run(s, [a, b]) == Step(Step(s, a), b)
  {
    RunSnoc(s, [], a);
    RunSnoc(s, [a], b);
    assert [] + [a] == [a] && [a] + [b] == [a, b];
  }

  lemma BothLook(s: SystemState, first: Caller, second: Caller, q: FilingRequest, r: FilingRequest, maxLifetime: nat)
    requires DecideFiling(s.db, q, maxLifetime).Ok? && DecideFiling(s.db, r, maxLifetime).Ok?
    ensures Run(s, [BeginFiling(first, q, maxLifetime), BeginFiling(second, r, maxLifetime)]) ==
            s.(filings := s.filings[first := FiledRow(q)][second := FiledRow(r)])
  {
    RunTwo(s, BeginFiling(first, q, maxLifetime), BeginFiling(second, r, maxLifetime));
  }

  lemma BothInsert(s: SystemState, first: Caller, second: Caller, x: ExceptionId, y: ExceptionId)
    requires first in s.filings && second in s.filings && first != second
    requires x != y && x !in s.db.exceptions && y !in s.db.exceptions
    requires TableAccepts(s.filings[first]) && TableAccepts(s.filings[second])
    ensures Run(s, [EndFiling(first, x), EndFiling(second, y)]).db.exceptions ==
            s.db.exceptions[x := s.filings[first]][y := s.filings[second]]
  {
    RunTwo(s, EndFiling(first, x), EndFiling(second, y));
  }

  /** Two callers that both look before either inserts leave two pending exceptions for one blocker. */
  lemma TwoFilingsMayBothPend(s: SystemState, first: Caller, second: Caller, x: ExceptionId, y: ExceptionId,
                              q: FilingRequest, r: FilingRequest, maxLifetime: nat)
    requires first != second && x != y && x !in s.db.exceptions && y !in s.db.exceptions
    requires SameSlot(FiledRow(q), FiledRow(r)) && TableAccepts(FiledRow(q)) && TableAccepts(FiledRow(r))
    requires DecideFiling(s.db, q, maxLifetime).Ok? && DecideFiling(s.db, r, maxLifetime).Ok?
    ensures var looked := Run(s, [BeginFiling(first, q, maxLifetime), BeginFiling(second, r, maxLifetime)]);
            var db := Run(looked, [EndFiling(first, x), EndFiling(second, y)]).db;
            && looked.db == s.db && x in db.exceptions && y in db.exceptions
            && BothActive(db.exceptions[x], db.exceptions[y])
  {
    BothLook(s, first, second, q, r, maxLifetime);
    var looked := s.(filings := s.filings[first := FiledRow(q)][second := FiledRow(r)]);
    BothInsert(looked, first, second, x, y);
  }

  /** An exception keeps its state or moves along one edge, so expired, rejected and withdrawn are final. */
  lemma ExceptionMovesAreEdges(s: SystemState, a: Action, e: ExceptionId)
    requires TicketsOk(s) && e in s.db.exceptions
    ensures e in Step(s, a).db.exceptions
    ensures var before, after := s.db.exceptions[e].state, Step(s, a).db.exceptions[e].state;
            before == after || ((before, after) in EXCEPTION_EDGES && ExceptionRank(after) < ExceptionRank(before))
  {
    match a
    case EndException(c) => if c in s.exceptionTickets { CommitMovesException(s.db, s.exceptionTickets[c], e); }
    case BeginWave(_, _, _, _) => LookingChangesNothing(s, a);
    case BeginException(_, _, _, _) => LookingChangesNothing(s, a);
    case BeginFiling(_, _, _) => LookingChangesNothing(s, a);
    case EndWave(_) => WavesLeaveExceptions(s, a);
    case DraftWave(_, _, _) => WavesLeaveExceptions(s, a);
    case EndFiling(c, id) => if c in s.filings { InsertLeavesExceptions(s.db, id, s.filings[c], e); }
    case _ => OtherWritersNeverPark(s, a);
  }

  lemma CommitMovesException(db: Database, t: ExceptionTicket, e: ExceptionId)
    requires ExceptionTicketOk(db, t) && e in db.exceptions
    ensures e in CommitException(db, t).exceptions
    ensures var before, after := db.exceptions[e].state, CommitException(db, t).exceptions[e].state;
            before == after || ((before, after) in EXCEPTION_EDGES && ExceptionRank(after) < ExceptionRank(before))
  {
  }

  lemma WavesLeaveExceptions(s: SystemState, a: Action)
    requires a.EndWave? || a.DraftWave?
    ensures Step(s, a).db.exceptions == s.db.exceptions
  {
  }

  lemma InsertLeavesExceptions(db: Database, id: ExceptionId, row: UpliftException, e: ExceptionId)
    requires e in db.exceptions
    ensures e in InsertException(db, id, row).exceptions
    ensures InsertException(db, id, row).exceptions[e] == db.exceptions[e]
  {
  }

  /** Along any continuation of a safe state an exception keeps its state or loses rank. */
  lemma {:induction false} ExceptionRankNeverGrows(s: SystemState, actions: seq<Action>, e: ExceptionId)
    requires Inv(s) && e in s.db.exceptions
    ensures e in Run(s, actions).db.exceptions
    ensures var before, after := s.db.exceptions[e].state, Run(s, actions).db.exceptions[e].state;
            after == before || ExceptionRank(after) < ExceptionRank(before)
  {
    if actions == [] {
    } else {
      var most := actions[..|actions| - 1];
      ExceptionRankNeverGrows(s, most, e);
      RunKeepsTickets(s, most);
      ExceptionMovesAreEdges(Run(s, most), actions[|actions| - 1], e);
    }
  }

  lemma ExceptionWinnerLosesRank(s: SystemState, winner: Caller, loser: ExceptionTicket)
    requires TicketsOk(s) && winner in s.exceptionTickets && ExceptionTicketOk(s.db, loser)
    requires s.exceptionTickets[winner].exc == loser.exc && s.exceptionTickets[winner].read == loser.read
    requires ExceptionCommits(s.db, s.exceptionTickets[winner])
    ensures OutrankedException(Step(s, EndException(winner)).db, loser)
  {
    assert ExceptionTicketOk(s.db, s.exceptionTickets[winner]);
  }

  predicate OutrankedException(db: Database, loser: ExceptionTicket) {
    && loser.exc in db.exceptions
    && ExceptionRank(db.exceptions[loser.exc].state) < ExceptionRank(ExceptionExpectedState(loser.op, loser.read))
  }

  lemma OutrankedExceptionNeverWins(s: SystemState, a: Action, loser: ExceptionTicket, actions: seq<Action>)
    requires Inv(s) && OutrankedException(Step(s, a).db, loser)
    ensures !ExceptionGuardHolds(Run(Step(s, a), actions).db, loser)
  {
    StepKeepsInv(s, a);
    ExceptionRankNeverGrows(Step(s, a), actions, loser.exc);
  }

  /** Of the callers that decided from the same stored state of an exception, at most one ever wins. */
  lemma OneExceptionWinnerPerStoredState(s: SystemState, winner: Caller, loser: ExceptionTicket, actions: seq<Action>)
    requires Inv(s) && winner in s.exceptionTickets && ExceptionTicketOk(s.db, loser)
    requires s.exceptionTickets[winner].exc == loser.exc && s.exceptionTickets[winner].read == loser.read
    requires ExceptionCommits(s.db, s.exceptionTickets[winner])
    ensures !ExceptionGuardHolds(Run(Step(s, EndException(winner)), actions).db, loser)
  {
    ExceptionWinnerLosesRank(s, winner, loser);
    OutrankedExceptionNeverWins(s, EndException(winner), loser, actions);
  }

  // ---- what the steps of the protocol do -----------------------------------

  /** May this operation begin on a wave in this state? */
  predicate MayBeginWave(op: WaveOp, w: Wave, actor: Subject) {
    match op
    case Submit => w.state == Draft
    case Approve(_) => w.state == Submitted && actor != w.draftedBy
    case Reject(_) => w.state == Submitted
    case Cancel(_) => w.state == Draft || w.state == Submitted
    case Invalidate(_) => w.state == Draft || w.state == Submitted
  }

  lemma WaveMayBeginIff(db: Database, op: WaveOp, id: WaveId, actor: Subject)
    ensures var r := DecideWave(db, op, id, actor);
            && (r.Ok? <==> id in db.waves && MayBeginWave(op, db.waves[id], actor))
            && (r.Ok? ==> r.value == WaveTicket(op, id, db.waves[id].state, actor))
  {
  }

  /** A look at a wave: a ticket that remembers the state read, exactly when the operation may begin. */
  lemma BegunWave(s: SystemState, c: Caller, op: WaveOp, id: WaveId, actor: Subject)
    ensures var t := Step(s, BeginWave(c, op, id, actor));
            && t.db == s.db
            && (c in t.waveTickets <==> id in s.db.waves && MayBeginWave(op, s.db.waves[id], actor))
            && (c in t.waveTickets ==> t.waveTickets[c] == WaveTicket(op, id, s.db.waves[id].state, actor))
  {
    WaveMayBeginIff(s.db, op, id, actor);
  }

  /** The guarded write of one wave: its row, one audit row, and nothing else besides the lifecycles. */
  ghost predicate WroteWave(before: Database, after: Database, t: WaveTicket, row: Wave)
    requires t.wave in before.waves
  {
    && after.waves == before.waves[t.wave := row]
    && after.audit == before.audit +
                      [AuditRow(WaveObject(t.wave), t.actor, WaveMoved(before.waves[t.wave].state, row.state))]
    && after.latest == before.latest && after.exceptions == before.exceptions
  }

  /**
   What the guarded update of a wave does, operation by operation: it needs the state that was read,
   stamps the row, and moves the members from one lifecycle to another; otherwise it does nothing.
  */
  lemma EndedWave(s: SystemState, c: Caller)
    requires TicketsOk(s) && c in s.waveTickets
    ensures var t, before, after := s.waveTickets[c], s.db, Step(s, EndWave(c)).db;
            var w := before.waves[t.wave];
            if w.state != t.read then after == before
            else
              match t.op
              case Submit =>
                && w.state == Draft && WroteWave(before, after, t, w.(state := Submitted, submittedBy := Some(t.actor)))
                && MembersMoved(before.lifecycle, after.lifecycle, w.members, ReadyForUplift, ApprovalPending)
              case Approve(citation) =>
                && w.state == Submitted
                && WroteWave(before, after, t,
                             w.(state := Approved, approvedBy := Some(t.actor), citation := Some(citation)))
                && MembersMoved(before.lifecycle, after.lifecycle, w.members, ApprovalPending, UpliftApproved)
              case Reject(citation) =>
                && w.state == Submitted
                && WroteWave(before, after, t,
                             w.(state := Rejected, rejectedBy := Some(t.actor), citation := Some(citation)))
                && MembersMoved(before.lifecycle, after.lifecycle, w.members, ApprovalPending, ReadyForUplift)
              case Cancel(reason) =>
                && WroteWave(before, after, t,
                             w.(state := Cancelled, cancelledBy := Some(t.actor), citation := Some(reason)))
                && Reverted(before.lifecycle, after.lifecycle, w)
              case Invalidate(reason) =>
                && WroteWave(before, after, t, w.(state := Invalidated, invalidatedReason := Some(reason)))
                && Reverted(before.lifecycle, after.lifecycle, w)
  {
    var t := s.waveTickets[c];
    assert WaveTicketOk(s.db, t);
    if WaveGuardHolds(s.db, t) {
      EndedLifecycle(s.db.lifecycle, s.db.waves[t.wave].members, t.op, t.read);
    }
  }

  /** Taking back a wave releases its waiting members if it was submitted, and nobody if it was a draft. */
  ghost predicate Reverted(before: map<DeviceId, Lifecycle>, after: map<DeviceId, Lifecycle>, w: Wave) {
    if w.state == Submitted then MembersMoved(before, after, w.members, ApprovalPending, ReadyForUplift)
    else after == before
  }

  lemma EndedLifecycle(lifecycle: map<DeviceId, Lifecycle>, members: seq<Member>, op: WaveOp, read: WaveState)
    ensures var after := WaveLifecycleEffect(lifecycle, members, op, read);
            match op
            case Submit => MembersMoved(lifecycle, after, members, ReadyForUplift, ApprovalPending)
            case Approve(_) => MembersMoved(lifecycle, after, members, ApprovalPending, UpliftApproved)
            case Reject(_) => MembersMoved(lifecycle, after, members, ApprovalPending, ReadyForUplift)
            case _ => if read == Submitted then MembersMoved(lifecycle, after, members, ApprovalPending, ReadyForUplift)
                      else after == lifecycle
  {
  }

  /** May this operation begin on an exception in this state? */
  predicate MayBeginException(op: ExceptionOp, e: UpliftException, lifecycle: Option<Lifecycle>, actor: Subject) {
    match op
    case ApproveException => e.state == PendingReview && actor != e.filedBy && lifecycle == Some(Blocked)
    case RejectException => e.state == PendingReview
    case WithdrawException => e.state == PendingReview || e.state == ExceptionApproved
    case ExpireException(now) => e.state == ExceptionApproved && e.expiresAt < now
  }

  lemma BegunException(s: SystemState, c: Caller, op: ExceptionOp, id: ExceptionId, actor: Subject)
    ensures var t := Step(s, BeginException(c, op, id, actor));
            && t.db == s.db
            && (c in t.exceptionTickets <==>
                  && id in s.db.exceptions
                  && var e := s.db.exceptions[id];
                     var lifecycle := if e.device in s.db.lifecycle then Some(s.db.lifecycle[e.device]) else None;
                     MayBeginException(op, e, lifecycle, actor))
            && (c in t.exceptionTickets ==>
                  t.exceptionTickets[c] == ExceptionTicket(op, id, s.db.exceptions[id].state, actor))
  {
  }

  /** The guarded write of one exception. */
  ghost predicate WroteException(before: Database, after: Database, t: ExceptionTicket, row: UpliftException)
    requires t.exc in before.exceptions
  {
    && after.exceptions == before.exceptions[t.exc := row]
    && after.audit == before.audit +
                      [AuditRow(ExceptionObject(t.exc), t.actor,
                                ExceptionMoved(before.exceptions[t.exc].state, row.state))]
    && after.latest == before.latest && after.waves == before.waves
  }

  /** The device under a granted exception is blocked again; any other lifecycle stays. */
  ghost predicate GrantTaken(before: map<DeviceId, Lifecycle>, after: map<DeviceId, Lifecycle>, device: DeviceId) {
    after == if device in before && before[device] == ExceptionGranted then before[device := Blocked] else before
  }

  /**
   What the guarded update of an exception does. An approval grants the device, unless the index
   refuses a second approved exception; ending an approved one takes the grant back.
  */
  lemma EndedException(s: SystemState, c: Caller)
    requires TicketsOk(s) && c in s.exceptionTickets
    ensures var t, before, after := s.exceptionTickets[c], s.db, Step(s, EndException(c)).db;
            var e := before.exceptions[t.exc];
            if e.state != t.read then after == before
            else
              match t.op
              case ApproveException =>
                if exists x :: x in before.exceptions && x != t.exc && before.exceptions[x].device == e.device &&
                               before.exceptions[x].blocker == e.blocker &&
                               before.exceptions[x].state == ExceptionApproved
                then after == before
                else
                  && WroteException(before, after, t, e.(state := ExceptionApproved, approvedBy := Some(t.actor)))
                  && after.lifecycle == if e.device in before.lifecycle
                                        then before.lifecycle[e.device := ExceptionGranted] else before.lifecycle
              case RejectException =>
                && WroteException(before, after, t, e.(state := ExceptionRejected))
                && after.lifecycle == before.lifecycle
              case WithdrawException =>
                && WroteException(before, after, t, e.(state := Withdrawn))
                && if e.state == ExceptionApproved then GrantTaken(before.lifecycle, after.lifecycle, e.device)
                   else after.lifecycle == before.lifecycle
              case ExpireException(_) =>
                && WroteException(before, after, t, e.(state := Expired))
                && GrantTaken(before.lifecycle, after.lifecycle, e.device)
  {
    assert ExceptionTicketOk(s.db, s.exceptionTickets[c]);
  }

  /** What the other writers of the lifecycle column write. */
  lemma OtherWrites(s: SystemState, d: DeviceId, classified: bool, verdict: Lifecycle, row: LatestReadiness)
    ensures var after := Step(s, ImportDevice(d, classified)).db.lifecycle;
            after == if d !in s.db.lifecycle
                     then s.db.lifecycle[d := if classified then Lifecycle.Classified else Lifecycle.Imported]
                     else if classified && s.db.lifecycle[d] == Lifecycle.Imported
                     then s.db.lifecycle[d := Lifecycle.Classified] else s.db.lifecycle
    ensures var after := Step(s, SyncDevice(d)).db.lifecycle;
            after == if d !in s.db.lifecycle then s.db.lifecycle[d := Lifecycle.Imported] else s.db.lifecycle
    ensures d in s.db.lifecycle && verdict in {Lifecycle.Classified, Unknown, Lifecycle.Compliant, OutsideTarget} ==>
              Step(s, ComplianceVerdict(d, verdict)).db.lifecycle == s.db.lifecycle[d := verdict]
    ensures d in s.db.lifecycle ==>
              var after := Step(s, ReadinessVerdict(d, row)).db;
              && after.latest == s.db.latest[d := row]
              && (row.state == ReadyState ==> after.lifecycle == s.db.lifecycle[d := ReadyForUplift])
              && (row.state == BlockedState ==> after.lifecycle == s.db.lifecycle[d := Blocked])
              && (row.state == NotApplicableState ==> after.lifecycle == s.db.lifecycle)
  {
  }
}
