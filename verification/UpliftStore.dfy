/**
 The wave and exception controllers over mutable tables. Each method is proved to do what the
 transition system of UpliftGovernance says, so the results about runs apply to these methods.
*/
module UpliftStore {
  import opened Prelude
  import opened UpliftStateMachine
  import opened UpliftGovernance
  import UpliftRuns

  /** Waves that a catalog reload must invalidate: not terminal, with an affected member. */
  ghost function AffectedWaves(db: Database, affected: set<DeviceId>): set<WaveId> {
    set w | w in db.waves && db.waves[w].state in {Draft, Submitted} && TouchesAny(db.waves[w].members, affected)
  }

  predicate TouchesAny(members: seq<Member>, affected: set<DeviceId>) {
    exists i :: 0 <= i < |members| && members[i].device in affected
  }

  function InvalidationReason(live: set<(string, string)>, w: Wave): string {
    if (w.platformFamily, w.targetVersion) in live then "f4_reverdict" else "target_retired"
  }

  ghost function OverdueOf(db: Database, device: DeviceId, now: Time): set<ExceptionId> {
    set e | e in db.exceptions && db.exceptions[e].device == device && Overdue(db.exceptions[e], now)
  }

  predicate InForce(e: UpliftException, device: DeviceId, now: Time) {
    e.device == device && ActiveAt(e, now)
  }

  /** The device is blocked, its latest readiness row says so, and that row lists the blocker. */
  ghost predicate Citable(db: Database, device: DeviceId, blocker: BlockerKey) {
    && device in db.lifecycle && db.lifecycle[device] == Blocked
    && device in db.latest && db.latest[device].state == BlockedState
    && exists b :: b in db.latest[device].blockers &&
         match blocker
         case RuleKey(rule) => b.ruleId == Some(rule)
         case SyntheticKey(kind) => b.ruleId == None && b.kind == kind
  }

  /** A pending or approved exception already covers this blocker of this device. */
  ghost predicate ActiveBeside(exceptions: map<ExceptionId, UpliftException>, device: DeviceId, blocker: BlockerKey) {
    exists x :: x in exceptions && exceptions[x].device == device && exceptions[x].blocker == blocker &&
                (exceptions[x].state == PendingReview || exceptions[x].state == ExceptionApproved)
  }

  /** Another exception for the same blocker of the same device is approved. */
  ghost predicate ApprovedBeside(exceptions: map<ExceptionId, UpliftException>, id: ExceptionId)
    requires id in exceptions
  {
    exists x :: x in exceptions && x != id && exceptions[x].state == ExceptionApproved &&
                exceptions[x].device == exceptions[id].device && exceptions[x].blocker == exceptions[id].blocker
  }

  class Store {
    var lifecycle: map<DeviceId, Lifecycle>
    var latest: map<DeviceId, LatestReadiness>
    var waves: map<WaveId, Wave>
    var exceptions: map<ExceptionId, UpliftException>
    var audit: seq<AuditRow>

    function Db(): Database
      reads this
    {
      Database(lifecycle, latest, waves, exceptions, audit)
    }

    constructor ()
      ensures Db() == Database(map[], map[], map[], map[], [])
    {
      lifecycle, latest, waves, exceptions, audit := map[], map[], map[], map[], [];
    }

    /** The member loop of submit, approve and the revert helper. */
    method SetMembers(members: seq<Member>, from: Lifecycle, to: Lifecycle)
      requires from != to
      modifies this`lifecycle
      ensures lifecycle == MoveMembers(old(lifecycle), members, from, to)
    {
      for i := 0 to |members|
        invariant lifecycle == MoveMembers(old(lifecycle), members[..i], from, to)
      {
        var d := members[i].device;
        if d in lifecycle && lifecycle[d] == from {
          lifecycle := lifecycle[d := to];
        }
        assert members[..i + 1] == members[..i] + [members[i]];
        MoveMembersSnoc(old(lifecycle), members[..i], members[i], from, to);
      }
      assert members[..|members|] == members;
    }

    /** UPDATE ... WHERE id = :id AND state = :expected; reports the stored state when it loses. */
    method UpdateWaveWhere(id: WaveId, expected: WaveState, row: Wave) returns (r: Result<Wave, GovernanceError>)
      modifies this`waves
      ensures id in old(waves) && old(waves)[id].state == expected ==> r == Ok(row) && waves == old(waves)[id := row]
      ensures !(id in old(waves) && old(waves)[id].state == expected) ==> r.Err? && waves == old(waves)
    {
      if id !in waves {
        return Err(NotFound);
      }
      if waves[id].state != expected {
        return Err(StateMismatch(expected, waves[id].state));
      }
      waves := waves[id := row];
      r := Ok(row);
    }

    method Submit(id: WaveId, actor: Subject) returns (r: Result<Wave, GovernanceError>)
      modifies this
      ensures match DecideWave(old(Db()), WaveOp.Submit, id, actor)
              case Err(e) => r == Err(e) && Db() == old(Db())
              case Ok(t) => Db() == CommitWave(old(Db()), t) && id in waves && r == Ok(waves[id])
      ensures r.Ok? <==> id in old(waves) && old(waves)[id].state == Draft
      ensures id in old(waves) && r.Err? ==> r.error == Refused(TransitionForbidden)
      ensures r.Ok? ==>
                var w := old(waves)[id];
                && waves == old(waves)[id := w.(state := Submitted, submittedBy := Some(actor))]
                && MembersMoved(old(lifecycle), lifecycle, w.members, ReadyForUplift, ApprovalPending)
                && audit == old(audit) + [AuditRow(WaveObject(id), actor, WaveMoved(Draft, Submitted))]
    {
      if id !in waves {
        return Err(NotFound);
      }
      var w := waves[id];
      var d := WaveDecide(w.state, Submitted, Drafter, actor, w.draftedBy);
      if d.Err? {
        return Err(Refused(d.error));
      }
      r := UpdateWaveWhere(id, Draft, w.(state := Submitted, submittedBy := Some(actor)));
      if r.Ok? {
        SetMembers(w.members, ReadyForUplift, ApprovalPending);
        audit := audit + [AuditRow(WaveObject(id), actor, WaveMoved(Draft, Submitted))];
      }
    }

    method Approve(id: WaveId, citation: string, actor: Subject) returns (r: Result<Wave, GovernanceError>)
      modifies this
      ensures match DecideWave(old(Db()), WaveOp.Approve(citation), id, actor)
              case Err(e) => r == Err(e) && Db() == old(Db())
              case Ok(t) => Db() == CommitWave(old(Db()), t) && id in waves && r == Ok(waves[id])
      ensures r.Ok? <==> id in old(waves) && old(waves)[id].state == Submitted && actor != old(waves)[id].draftedBy
      ensures id in old(waves) && r.Err? ==>
                r.error == Refused(if old(waves)[id].state == Submitted then SelfApprovalForbidden
                                   else TransitionForbidden)
      ensures r.Ok? ==>
                var w := old(waves)[id];
                && waves == old(waves)[id :=
                     w.(state := Approved, approvedBy := Some(actor), citation := Some(citation))]
                && MembersMoved(old(lifecycle), lifecycle, w.members, ApprovalPending, UpliftApproved)
                && audit == old(audit) + [AuditRow(WaveObject(id), actor, WaveMoved(Submitted, Approved))]
    {
      if id !in waves {
        return Err(NotFound);
      }
      var w := waves[id];
      var d := WaveDecide(w.state, Approved, Approver, actor, w.draftedBy);
      if d.Err? {
        return Err(Refused(d.error));
      }
      r := UpdateWaveWhere(id, Submitted, w.(state := Approved, approvedBy := Some(actor), citation := Some(citation)));
      if r.Ok? {
        SetMembers(w.members, ApprovalPending, UpliftApproved);
        audit := audit + [AuditRow(WaveObject(id), actor, WaveMoved(Submitted, Approved))];
      }
    }

    method Reject(id: WaveId, citation: string, actor: Subject) returns (r: Result<Wave, GovernanceError>)
      modifies this
      ensures match DecideWave(old(Db()), WaveOp.Reject(citation), id, actor)
              case Err(e) => r == Err(e) && Db() == old(Db())
              case Ok(t) => Db() == CommitWave(old(Db()), t) && id in waves && r == Ok(waves[id])
      ensures r.Ok? <==> id in old(waves) && old(waves)[id].state == Submitted
      ensures id in old(waves) && r.Err? ==> r.error == Refused(TransitionForbidden)
      ensures r.Ok? ==>
                var w := old(waves)[id];
                && waves == old(waves)[id :=
                     w.(state := Rejected, rejectedBy := Some(actor), citation := Some(citation))]
                && MembersMoved(old(lifecycle), lifecycle, w.members, ApprovalPending, ReadyForUplift)
                && audit == old(audit) + [AuditRow(WaveObject(id), actor, WaveMoved(Submitted, Rejected))]
    {
      if id !in waves {
        return Err(NotFound);
      }
      var w := waves[id];
      var selfRejection := actor == w.draftedBy;
      var d := WaveDecide(w.state, Rejected, if selfRejection then Drafter else Approver, actor, w.draftedBy);
      if d.Err? {
        return Err(Refused(d.error));
      }
      r := UpdateWaveWhere(id, Submitted, w.(state := Rejected, rejectedBy := Some(actor), citation := Some(citation)));
      if r.Ok? {
        SetMembers(w.members, ApprovalPending, ReadyForUplift);
        audit := audit + [AuditRow(WaveObject(id), actor, WaveMoved(Submitted, Rejected))];
      }
    }

    method Cancel(id: WaveId, reason: string, actor: Subject) returns (r: Result<Wave, GovernanceError>)
      modifies this
      ensures match DecideWave(old(Db()), WaveOp.Cancel(reason), id, actor)
              case Err(e) => r == Err(e) && Db() == old(Db())
              case Ok(t) => Db() == CommitWave(old(Db()), t) && id in waves && r == Ok(waves[id])
      ensures r.Ok? <==> id in old(waves) && (old(waves)[id].state == Draft || old(waves)[id].state == Submitted)
      ensures id in old(waves) && r.Err? ==> r.error == Refused(TransitionForbidden)
      ensures r.Ok? ==>
                var w := old(waves)[id];
                && waves == old(waves)[id :=
                     w.(state := Cancelled, cancelledBy := Some(actor), citation := Some(reason))]
                && (w.state == Draft ==> lifecycle == old(lifecycle))
                && (w.state == Submitted ==>
                      MembersMoved(old(lifecycle), lifecycle, w.members, ApprovalPending, ReadyForUplift))
                && audit == old(audit) + [AuditRow(WaveObject(id), actor, WaveMoved(w.state, Cancelled))]
    {
      if id !in waves {
        return Err(NotFound);
      }
      var w := waves[id];
      var current := w.state;
      var d := WaveDecide(current, Cancelled, Drafter, actor, w.draftedBy);
      if d.Err? {
        return Err(Refused(d.error));
      }
      r := UpdateWaveWhere(id, current, w.(state := Cancelled, cancelledBy := Some(actor), citation := Some(reason)));
      if r.Ok? {
        if current == Submitted {
          SetMembers(w.members, ApprovalPending, ReadyForUplift);
        }
        audit := audit + [AuditRow(WaveObject(id), actor, WaveMoved(current, Cancelled))];
      }
    }

    /** One iteration of the invalidation hook. */
    method InvalidateOne(id: WaveId, live: set<(string, string)>, actor: Subject)
      requires id in waves && waves[id].state in {Draft, Submitted}
      modifies this
      ensures Db() == InvalidateWave(old(Db()), id, live, actor)
    {
      var w := waves[id];
      var current := w.state;
      var reason := InvalidationReason(live, w);
      var r := UpdateWaveWhere(id, current, w.(state := Invalidated, invalidatedReason := Some(reason)));
      if current == Submitted {
        SetMembers(w.members, ApprovalPending, ReadyForUplift);
      }
      audit := audit + [AuditRow(WaveObject(id), actor, WaveMoved(current, Invalidated))];
    }

    /** The hook of a catalog reload; `done` lists the invalidated waves in the order of their updates. */
    method InvalidateAffected(affected: set<DeviceId>, live: set<(string, string)>, actor: Subject)
      returns (done: seq<WaveId>)
      modifies this
      ensures Distinct(done) && Elements(done) == AffectedWaves(old(Db()), affected)
      ensures Db() == InvalidateAll(old(Db()), done, live, actor)
      ensures WavesInvalidated(old(waves), waves, affected, live)
      ensures lifecycle.Keys == old(lifecycle).Keys
      ensures forall d :: d in old(lifecycle) ==>
                lifecycle[d] == if old(lifecycle)[d] == ApprovalPending && WaitsBeside(old(waves), affected, d)
                                then ReadyForUplift else old(lifecycle)[d]
      ensures exceptions == old(exceptions) && SweepAudited(old(waves), done, actor, old(audit), audit)
    {
      ghost var start := Db();
      done := Sweep(affected, live, actor);
      SweepInTables(start, affected, done, live, actor);
    }

    /** The loop over the affected waves, in any order. */
    method Sweep(affected: set<DeviceId>, live: set<(string, string)>, actor: Subject) returns (done: seq<WaveId>)
      modifies this
      ensures Distinct(done) && Elements(done) == AffectedWaves(old(Db()), affected)
      ensures Db() == InvalidateAll(old(Db()), done, live, actor)
    {
      ghost var start := Db();
      var todo := set w | w in waves && waves[w].state in {Draft, Submitted} && TouchesAny(waves[w].members, affected);
      done := [];
      while todo != {}
        invariant Sweeping(start, affected, done, todo)
        invariant Db() == InvalidateAll(start, done, live, actor)
      {
        var id :| id in todo;
        SweepStep(start, affected, done, todo, id, live, actor);
        InvalidateOne(id, live, actor);
        done := done + [id];
        todo := todo - {id};
      }
    }

    /** One iteration of the expiry loop. */
    method ExpireOne(id: ExceptionId, device: DeviceId, now: Time, actor: Subject)
      requires id in exceptions && exceptions[id].state == ExceptionApproved && exceptions[id].device == device
      modifies this
      ensures Db() == CommitException(old(Db()), ExceptionTicket(ExpireException(now), id, ExceptionApproved, actor))
    {
      var r := UpdateExceptionWhere(id, ExceptionApproved, exceptions[id].(state := Expired));
      if device in lifecycle && lifecycle[device] == ExceptionGranted {
        lifecycle := lifecycle[device := Blocked];
      }
      audit := audit + [AuditRow(ExceptionObject(id), actor, ExceptionMoved(ExceptionApproved, Expired))];
    }

    /** Lazy expiry: every approved exception of the device whose end lies before `now` expires. */
    method ExpireOverdue(device: DeviceId, now: Time, actor: Subject) returns (expired: seq<ExceptionId>)
      modifies this
      ensures Distinct(expired) && Elements(expired) == OverdueOf(old(Db()), device, now)
      ensures Db() == ExpireAll(old(Db()), expired, now, actor)
      ensures exceptions.Keys == old(exceptions).Keys && waves == old(waves)
      ensures forall e :: e in old(exceptions) ==>
                var row := old(exceptions)[e];
                exceptions[e] == if row.device == device && row.state == ExceptionApproved && row.expiresAt < now
                                 then row.(state := Expired) else row
      ensures lifecycle == if expired != [] && device in old(lifecycle) && old(lifecycle)[device] == ExceptionGranted
                           then old(lifecycle)[device := Blocked] else old(lifecycle)
    {
      ghost var start := Db();
      var todo := set e | e in exceptions && exceptions[e].device == device && Overdue(exceptions[e], now);
      expired := [];
      while todo != {}
        invariant Expiring(start, device, now, expired, todo)
        invariant Db() == ExpireAll(start, expired, now, actor)
      {
        var id :| id in todo;
        ExpiryStep(start, device, now, expired, todo, id, actor);
        ExpireOne(id, device, now, actor);
        expired := expired + [id];
        todo := todo - {id};
      }
      ExpiryInTables(start, device, expired, now, actor);
    }

    /** The approved exception that carves a device out of the readiness verdict, if one is in force. */
    method FindActiveApproved(device: DeviceId, now: Time) returns (r: Option<ExceptionId>)
      ensures r.Some? ==>
                && r.value in exceptions && exceptions[r.value].device == device
                && exceptions[r.value].state == ExceptionApproved && exceptions[r.value].expiresAt > now
      ensures r.None? ==>
                forall e :: e in exceptions && exceptions[e].device == device ==>
                  exceptions[e].state != ExceptionApproved || exceptions[e].expiresAt <= now
    {
      var hits := set e | e in exceptions && InForce(exceptions[e], device, now);
      if hits == {} {
        assert forall e :: e in exceptions && InForce(exceptions[e], device, now) ==> e in hits;
        return None;
      }
      var e :| e in hits;
      return Some(e);
    }

    /** Does the latest verdict list the cited blocker? */
    method BlockerListed(readiness: LatestReadiness, key: BlockerKey) returns (found: bool)
      ensures found == BlockerInReadiness(readiness, key)
    {
      for i := 0 to |readiness.blockers|
        invariant forall k :: 0 <= k < i ==>
                    match key
                    case RuleKey(r) => readiness.blockers[k].ruleId != Some(r)
                    case SyntheticKey(s) => readiness.blockers[k].ruleId != None || readiness.blockers[k].kind != s
      {
        var raw := readiness.blockers[i];
        if key.RuleKey? && raw.ruleId == Some(key.ruleId) {
          return true;
        }
        if key.SyntheticKey? && raw.ruleId == None && raw.kind == key.kind {
          return true;
        }
      }
      found := false;
    }

    /** The flush of a new row; the database checks its constraints. */
    method Insert(id: ExceptionId, row: UpliftException) returns (r: Result<UpliftException, GovernanceError>)
      requires id !in exceptions
      modifies this
      ensures Db() == InsertException(old(Db()), id, row)
      ensures r == if TableAccepts(row) then Ok(row) else Err(ConstraintViolated)
    {
      if !TableAccepts(row) {
        return Err(ConstraintViolated);
      }
      exceptions := exceptions[id := row];
      audit := audit + [AuditRow(ExceptionObject(id), row.filedBy, Created)];
      r := Ok(row);
    }

    method FileException(id: ExceptionId, q: FilingRequest, maxLifetime: nat)
      returns (r: Result<UpliftException, GovernanceError>)
      requires id !in exceptions
      modifies this
      ensures Db() == UpliftGovernance.FileException(old(Db()), id, q, maxLifetime)
      ensures match DecideFiling(old(Db()), q, maxLifetime)
              case Err(e) => r == Err(e)
              case Ok(row) => r == if TableAccepts(row) then Ok(row) else Err(ConstraintViolated)
      ensures r.Ok? <==>
                && Citable(old(Db()), q.device, q.blocker) && !ActiveBeside(old(exceptions), q.device, q.blocker)
                && q.now < q.expiresAt <= q.now + maxLifetime && q.expiresAt <= q.now + 365 * 86400
                && 20 <= |q.justification| <= 2000
                && (q.blocker.SyntheticKey? ==>
                      q.blocker.kind == "missing_upgrade_path" || q.blocker.kind == "missing_observation_field")
      ensures r.Ok? ==>
                && exceptions == old(exceptions)[id :=
                     UpliftException(PendingReview, q.device, q.blocker, q.actor, q.now, q.expiresAt, q.justification,
                                     None)]
                && audit == old(audit) + [AuditRow(ExceptionObject(id), q.actor, Created)]
                && lifecycle == old(lifecycle) && waves == old(waves)
      ensures r.Err? ==> Db() == old(Db())
    {
      var device := q.device;
      if device !in lifecycle {
        return Err(NotFound);
      }
      if lifecycle[device] != Blocked {
        return Err(DeviceNotBlocked);
      }
      if device !in latest || latest[device].state != BlockedState {
        return Err(DeviceNotBlocked);
      }
      var listed := BlockerListed(latest[device], q.blocker);
      if !listed {
        return Err(BlockerNotInLatestVerdict);
      }
      if exists x :: x in exceptions && Conflicts(exceptions[x], device, q.blocker) {
        return Err(AlreadyActive);
      }
      if q.expiresAt <= q.now || q.expiresAt > q.now + maxLifetime {
        return Err(InvalidExpiry);
      }
      r := Insert(id, FiledRow(q));
    }

    method UpdateExceptionWhere(id: ExceptionId, expected: ExceptionState, row: UpliftException)
      returns (r: Result<UpliftException, GovernanceError>)
      modifies this`exceptions
      ensures var wins := id in old(exceptions) && old(exceptions)[id].state == expected;
              if wins && !IndexRefuses(old(exceptions), id, row)
              then r == Ok(row) && exceptions == old(exceptions)[id := row]
              else (wins ==> r == Err(ConstraintViolated)) && r.Err? && exceptions == old(exceptions)
    {
      if id !in exceptions {
        return Err(NotFound);
      }
      if exceptions[id].state != expected {
        return Err(ExceptionMismatch(expected, exceptions[id].state));
      }
      if IndexRefuses(exceptions, id, row) {
        return Err(ConstraintViolated);
      }
      exceptions := exceptions[id := row];
      r := Ok(row);
    }

    method ApproveException(id: ExceptionId, actor: Subject) returns (r: Result<UpliftException, GovernanceError>)
      modifies this
      ensures match DecideException(old(Db()), ExceptionOp.ApproveException, id, actor)
              case Err(e) => r == Err(e) && Db() == old(Db())
              case Ok(t) =>
                && Db() == CommitException(old(Db()), t) && id in exceptions
                && r == if ExceptionCommits(old(Db()), t) then Ok(exceptions[id]) else Err(ConstraintViolated)
      ensures r.Ok? <==>
                && id in old(exceptions) && old(exceptions)[id].state == PendingReview
                && actor != old(exceptions)[id].filedBy
                && old(exceptions)[id].device in old(lifecycle) && old(lifecycle)[old(exceptions)[id].device] == Blocked
                && !ApprovedBeside(old(exceptions), id)
      ensures r.Ok? ==>
                var e := old(exceptions)[id];
                && exceptions == old(exceptions)[id := e.(state := ExceptionApproved, approvedBy := Some(actor))]
                && lifecycle == old(lifecycle)[e.device := ExceptionGranted]
                && audit == old(audit) +
                            [AuditRow(ExceptionObject(id), actor, ExceptionMoved(PendingReview, ExceptionApproved))]
      ensures r.Err? ==> Db() == old(Db())
    {
      if id !in exceptions {
        return Err(NotFound);
      }
      var e := exceptions[id];
      var d := ExceptionDecide(e.state, ExceptionApproved, Approver, actor, e.filedBy);
      if d.Err? {
        return Err(Refused(d.error));
      }
      if e.device !in lifecycle || lifecycle[e.device] != Blocked {
        return Err(DeviceNotBlocked);
      }
      r := UpdateExceptionWhere(id, PendingReview, e.(state := ExceptionApproved, approvedBy := Some(actor)));
      if r.Ok? {
        lifecycle := lifecycle[e.device := ExceptionGranted];
        audit := audit + [AuditRow(ExceptionObject(id), actor, ExceptionMoved(PendingReview, ExceptionApproved))];
      }
    }

    method RejectException(id: ExceptionId, actor: Subject) returns (r: Result<UpliftException, GovernanceError>)
      modifies this
      ensures match DecideException(old(Db()), ExceptionOp.RejectException, id, actor)
              case Err(e) => r == Err(e) && Db() == old(Db())
              case Ok(t) => Db() == CommitException(old(Db()), t) && id in exceptions && r == Ok(exceptions[id])
      ensures r.Ok? <==> id in old(exceptions) && old(exceptions)[id].state == PendingReview
      ensures r.Ok? ==>
                && exceptions == old(exceptions)[id := old(exceptions)[id].(state := ExceptionRejected)]
                && lifecycle == old(lifecycle)
                && audit == old(audit) +
                            [AuditRow(ExceptionObject(id), actor, ExceptionMoved(PendingReview, ExceptionRejected))]
    {
      if id !in exceptions {
        return Err(NotFound);
      }
      var e := exceptions[id];
      var d := ExceptionDecide(e.state, ExceptionRejected, Approver, actor, e.filedBy);
      if d.Err? {
        return Err(Refused(d.error));
      }
      r := UpdateExceptionWhere(id, PendingReview, e.(state := ExceptionRejected));
      if r.Ok? {
        audit := audit + [AuditRow(ExceptionObject(id), actor, ExceptionMoved(PendingReview, ExceptionRejected))];
      }
    }

    method WithdrawException(id: ExceptionId, actor: Subject) returns (r: Result<UpliftException, GovernanceError>)
      modifies this
      ensures match DecideException(old(Db()), ExceptionOp.WithdrawException, id, actor)
              case Err(e) => r == Err(e) && Db() == old(Db())
              case Ok(t) => Db() == CommitException(old(Db()), t) && id in exceptions && r == Ok(exceptions[id])
      ensures r.Ok? <==> id in old(exceptions) && (old(exceptions)[id].state == PendingReview ||
                                                   old(exceptions)[id].state == ExceptionApproved)
      ensures r.Ok? ==>
                var e := old(exceptions)[id];
                && exceptions == old(exceptions)[id := e.(state := Withdrawn)]
                && lifecycle == (if e.state == ExceptionApproved && e.device in old(lifecycle) &&
                                    old(lifecycle)[e.device] == ExceptionGranted
                                 then old(lifecycle)[e.device := Blocked] else old(lifecycle))
                && audit == old(audit) + [AuditRow(ExceptionObject(id), actor, ExceptionMoved(e.state, Withdrawn))]
    {
      if id !in exceptions {
        return Err(NotFound);
      }
      var e := exceptions[id];
      var current := e.state;
      var d := ExceptionDecide(current, Withdrawn, Filer, actor, e.filedBy);
      if d.Err? {
        return Err(Refused(d.error));
      }
      r := UpdateExceptionWhere(id, current, e.(state := Withdrawn));
      if r.Ok? {
        if current == ExceptionApproved && e.device in lifecycle && lifecycle[e.device] == ExceptionGranted {
          lifecycle := lifecycle[e.device := Blocked];
        }
        audit := audit + [AuditRow(ExceptionObject(id), actor, ExceptionMoved(current, Withdrawn))];
      }
    }
  }

  // ---- the two sweeps as folds of single moves ------------------------------

  ghost function InvalidateWave(db: Database, id: WaveId, live: set<(string, string)>, actor: Subject): Database {
    if id !in db.waves then db
    else CommitWave(db, WaveTicket(Invalidate(InvalidationReason(live, db.waves[id])), id, db.waves[id].state, actor))
  }

  ghost function InvalidateAll(db: Database, ids: seq<WaveId>, live: set<(string, string)>, actor: Subject): Database {
    if ids == [] then db
    else InvalidateWave(InvalidateAll(db, ids[..|ids| - 1], live, actor), ids[|ids| - 1], live, actor)
  }

  ghost function ExpireAll(db: Database, ids: seq<ExceptionId>, now: Time, actor: Subject): Database {
    if ids == [] then db
    else CommitException(ExpireAll(db, ids[..|ids| - 1], now, actor),
                         ExceptionTicket(ExpireException(now), ids[|ids| - 1], ExceptionApproved, actor))
  }

  /** Some invalidated wave was submitted and had this device as a member. */
  ghost predicate ReleasedBy(db: Database, ids: seq<WaveId>, d: DeviceId) {
    exists w :: w in ids && w in db.waves && db.waves[w].state == Submitted && IsMember(db.waves[w].members, d)
  }

  function InvalidatedRow(w: Wave, live: set<(string, string)>): Wave {
    w.(state := Invalidated, invalidatedReason := Some(InvalidationReason(live, w)))
  }

  function SweptWaves(waves: map<WaveId, Wave>, ids: seq<WaveId>, live: set<(string, string)>): map<WaveId, Wave> {
    map w | w in waves :: if w in ids then InvalidatedRow(waves[w], live) else waves[w]
  }

  lemma SweptWavesSnoc(waves: map<WaveId, Wave>, most: seq<WaveId>, last: WaveId, live: set<(string, string)>)
    requires last in waves && last !in most
    ensures last in SweptWaves(waves, most, live) && SweptWaves(waves, most, live)[last] == waves[last]
    ensures SweptWaves(waves, most + [last], live) ==
            SweptWaves(waves, most, live)[last := InvalidatedRow(waves[last], live)]
  {
  }

  lemma OneInvalidation(db: Database, id: WaveId, live: set<(string, string)>, actor: Subject)
    requires id in db.waves && db.waves[id].state in {Draft, Submitted}
    ensures var db' := InvalidateWave(db, id, live, actor);
            && db'.waves == db.waves[id := InvalidatedRow(db.waves[id], live)]
            && |db'.audit| == |db.audit| + 1
            && db'.exceptions == db.exceptions && db'.latest == db.latest
  {
  }

  /** The sweep invalidates the listed waves and no other, and writes one audit row per wave. */
  lemma {:induction false} InvalidationSweep(db: Database, ids: seq<WaveId>, live: set<(string, string)>,
                                             actor: Subject)
    requires Distinct(ids)
    requires forall w :: w in ids ==> w in db.waves && db.waves[w].state in {Draft, Submitted}
    ensures var db' := InvalidateAll(db, ids, live, actor);
            && db'.waves == SweptWaves(db.waves, ids, live)
            && |db'.audit| == |db.audit| + |ids|
            && db'.exceptions == db.exceptions && db'.latest == db.latest
  {
    if ids != [] {
      var most, last := ids[..|ids| - 1], ids[|ids| - 1];
      assert ids == most + [last] && last !in most;
      InvalidationSweep(db, most, live, actor);
      SweptWavesSnoc(db.waves, most, last, live);
      OneInvalidation(InvalidateAll(db, most, live, actor), last, live, actor);
    } else {
      assert SweptWaves(db.waves, ids, live) == db.waves;
    }
  }

  /** `done` lists what the sweep has visited, without repetition; `todo` is the rest of the affected waves. */
  ghost predicate Sweeping(db: Database, affected: set<DeviceId>, done: seq<WaveId>, todo: set<WaveId>) {
    todo <= AffectedWaves(db, affected) && Distinct(done) && Elements(done) == AffectedWaves(db, affected) - todo
  }

  /** The sweep has not touched a wave that is still to be visited, and may visit it next. */
  lemma {:induction false} SweepStep(db: Database, affected: set<DeviceId>, done: seq<WaveId>, todo: set<WaveId>,
                                     id: WaveId,
                                     live: set<(string, string)>, actor: Subject)
    requires Sweeping(db, affected, done, todo) && id in todo
    ensures Sweeping(db, affected, done + [id], todo - {id})
    ensures var swept := InvalidateAll(db, done, live, actor);
            && id in swept.waves && swept.waves[id].state in {Draft, Submitted}
            && InvalidateAll(db, done + [id], live, actor) == InvalidateWave(swept, id, live, actor)
  {
    assert forall w :: w in done ==> w in Elements(done);
    InvalidationSweep(db, done, live, actor);
    assert (done + [id])[..|done|] == done;
    assert Elements(done + [id]) == Elements(done) + {id};
  }

  /**
   Of the devices, the sweep releases exactly those waiting for approval that are members of an
   invalidated wave that was submitted; the order of the waves does not matter.
  */
  lemma {:induction false} InvalidationReleases(db: Database, ids: seq<WaveId>, live: set<(string, string)>,
                                                actor: Subject, d: DeviceId)
    requires Distinct(ids)
    requires forall w :: w in ids ==> w in db.waves && db.waves[w].state in {Draft, Submitted}
    requires d in db.lifecycle
    ensures var db' := InvalidateAll(db, ids, live, actor);
            && d in db'.lifecycle
            && db'.lifecycle[d] == if db.lifecycle[d] == ApprovalPending && ReleasedBy(db, ids, d)
                                   then ReadyForUplift else db.lifecycle[d]
  {
    if ids == [] {
    } else {
      var most, last := ids[..|ids| - 1], ids[|ids| - 1];
      InvalidationSweep(db, most, live, actor);
      InvalidationReleases(db, most, live, actor, d);
      assert ids == most + [last] && last !in most;
      OneRelease(InvalidateAll(db, most, live, actor), last, live, actor, d);
      assert ReleasedBy(db, ids, d) <==>
             ReleasedBy(db, most, d) || (db.waves[last].state == Submitted && IsMember(db.waves[last].members, d));
    }
  }

  lemma OneRelease(db: Database, id: WaveId, live: set<(string, string)>, actor: Subject, d: DeviceId)
    requires id in db.waves && db.waves[id].state in {Draft, Submitted} && d in db.lifecycle
    ensures var db' := InvalidateWave(db, id, live, actor);
            && d in db'.lifecycle
            && db'.lifecycle[d] == if db.lifecycle[d] == ApprovalPending && db.waves[id].state == Submitted &&
                                      IsMember(db.waves[id].members, d)
                                   then ReadyForUplift else db.lifecycle[d]
  {
  }

  /** After the reload hook no affected device sits in a draft or submitted wave. */
  lemma NothingAffectedSurvives(db: Database, affected: set<DeviceId>, ids: seq<WaveId>,
                                live: set<(string, string)>, actor: Subject, w: WaveId)
    requires Distinct(ids) && Elements(ids) == AffectedWaves(db, affected)
    requires w in InvalidateAll(db, ids, live, actor).waves
    ensures var row := InvalidateAll(db, ids, live, actor).waves[w];
            row.state in {Draft, Submitted} ==>
              !TouchesAny(row.members, affected) && w in db.waves && row == db.waves[w]
  {
    assert forall x :: x in ids ==> x in Elements(ids);
    InvalidationSweep(db, ids, live, actor);
    if w !in ids {
      assert w !in AffectedWaves(db, affected);
    }
  }

  /** Exactly the open waves with an affected member are invalidated, and the reason says whether their target lives. */
  ghost predicate WavesInvalidated(before: map<WaveId, Wave>, after: map<WaveId, Wave>, affected: set<DeviceId>,
                                   live: set<(string, string)>)
  {
    && after.Keys == before.Keys
    && forall w :: w in before ==>
         var row := before[w];
         after[w] == if (row.state == Draft || row.state == Submitted) &&
                        exists i :: 0 <= i < |row.members| && row.members[i].device in affected
                     then row.(state := Invalidated, invalidatedReason :=
                                 Some(if (row.platformFamily, row.targetVersion) in live then "f4_reverdict"
                                      else "target_retired"))
                     else row
  }

  /** The device is a member of a submitted wave that also holds an affected device. */
  ghost predicate WaitsBeside(waves: map<WaveId, Wave>, affected: set<DeviceId>, d: DeviceId) {
    exists w :: w in waves && waves[w].state == Submitted && IsMember(waves[w].members, d) &&
                exists i :: 0 <= i < |waves[w].members| && waves[w].members[i].device in affected
  }

  /** The sweep appended one audit row per wave, in the order of its updates. */
  ghost predicate SweepAudited(waves: map<WaveId, Wave>, ids: seq<WaveId>, actor: Subject, before: seq<AuditRow>,
                               after: seq<AuditRow>)
  {
    && |after| == |before| + |ids| && before <= after
    && forall k :: 0 <= k < |ids| ==>
         && ids[k] in waves
         && after[|before| + k] == AuditRow(WaveObject(ids[k]), actor, WaveMoved(waves[ids[k]].state, Invalidated))
  }

  lemma ReleasedBesideIff(db: Database, affected: set<DeviceId>, ids: seq<WaveId>, d: DeviceId)
    requires Elements(ids) == AffectedWaves(db, affected)
    ensures ReleasedBy(db, ids, d) <==> WaitsBeside(db.waves, affected, d)
  {
    assert forall w :: w in ids <==> w in Elements(ids);
    if w :| w in db.waves && db.waves[w].state == Submitted && IsMember(db.waves[w].members, d) &&
            exists i :: 0 <= i < |db.waves[w].members| && db.waves[w].members[i].device in affected {
      assert TouchesAny(db.waves[w].members, affected);
      assert w in AffectedWaves(db, affected);
    }
    if w :| w in ids && w in db.waves && db.waves[w].state == Submitted && IsMember(db.waves[w].members, d) {
      assert w in AffectedWaves(db, affected);
    }
  }

  /** The audit rows of a sweep, in the order of its updates. */
  lemma {:induction false} SweepAudit(db: Database, ids: seq<WaveId>, live: set<(string, string)>, actor: Subject)
    requires Distinct(ids)
    requires forall w :: w in ids ==> w in db.waves && db.waves[w].state in {Draft, Submitted}
    ensures SweepAudited(db.waves, ids, actor, db.audit, InvalidateAll(db, ids, live, actor).audit)
  {
    if ids == [] {
    } else {
      var most, last := ids[..|ids| - 1], ids[|ids| - 1];
      assert ids == most + [last] && last !in most;
      SweepAudit(db, most, live, actor);
      InvalidationSweep(db, most, live, actor);
      SweptWavesSnoc(db.waves, most, last, live);
      var before := InvalidateAll(db, most, live, actor);
      assert InvalidateAll(db, ids, live, actor).audit ==
             before.audit + [AuditRow(WaveObject(last), actor, WaveMoved(db.waves[last].state, Invalidated))];
    }
  }

  /** What the sweep over the affected waves does to the tables. */
  lemma SweepInTables(db: Database, affected: set<DeviceId>, ids: seq<WaveId>, live: set<(string, string)>,
                      actor: Subject)
    requires Distinct(ids) && Elements(ids) == AffectedWaves(db, affected)
    ensures var after := InvalidateAll(db, ids, live, actor);
            && WavesInvalidated(db.waves, after.waves, affected, live) && after.exceptions == db.exceptions
            && after.lifecycle.Keys == db.lifecycle.Keys
            && (forall d :: d in db.lifecycle ==>
                  after.lifecycle[d] == if db.lifecycle[d] == ApprovalPending && WaitsBeside(db.waves, affected, d)
                                        then ReadyForUplift else db.lifecycle[d])
            && SweepAudited(db.waves, ids, actor, db.audit, after.audit)
  {
    assert forall w :: w in ids <==> w in Elements(ids);
    InvalidationSweep(db, ids, live, actor);
    SweepAudit(db, ids, live, actor);
    SweepKeepsKeys(db, ids, live, actor);
    forall d | d in db.lifecycle
      ensures InvalidateAll(db, ids, live, actor).lifecycle[d] ==
              if db.lifecycle[d] == ApprovalPending && WaitsBeside(db.waves, affected, d)
              then ReadyForUplift else db.lifecycle[d]
    {
      InvalidationReleases(db, ids, live, actor, d);
      ReleasedBesideIff(db, affected, ids, d);
    }
  }

  lemma {:induction false} SweepKeepsKeys(db: Database, ids: seq<WaveId>, live: set<(string, string)>, actor: Subject)
    ensures InvalidateAll(db, ids, live, actor).lifecycle.Keys == db.lifecycle.Keys
  {
    if ids == [] {
    } else {
      SweepKeepsKeys(db, ids[..|ids| - 1], live, actor);
    }
  }

  /** What the expiry sweep does to the tables. */
  lemma ExpiryInTables(db: Database, device: DeviceId, ids: seq<ExceptionId>, now: Time, actor: Subject)
    requires Distinct(ids) && Elements(ids) == OverdueOf(db, device, now)
    ensures var after := ExpireAll(db, ids, now, actor);
            && after.exceptions.Keys == db.exceptions.Keys && after.waves == db.waves
            && (forall e :: e in db.exceptions ==>
                  var row := db.exceptions[e];
                  after.exceptions[e] ==
                  if row.device == device && row.state == ExceptionApproved && row.expiresAt < now
                  then row.(state := Expired) else row)
            && after.lifecycle == if ids != [] && device in db.lifecycle && db.lifecycle[device] == ExceptionGranted
                                  then db.lifecycle[device := Blocked] else db.lifecycle
  {
    assert forall e :: e in ids <==> e in Elements(ids);
    ExpirySweep(db, device, ids, now, actor);
  }

  lemma OneExpiry(db: Database, id: ExceptionId, now: Time, actor: Subject)
    requires id in db.exceptions && db.exceptions[id].state == ExceptionApproved
    ensures var db' := CommitException(db, ExceptionTicket(ExpireException(now), id, ExceptionApproved, actor));
            var device := db.exceptions[id].device;
            && db'.exceptions == db.exceptions[id := db.exceptions[id].(state := Expired)]
            && db'.lifecycle == (if device in db.lifecycle && db.lifecycle[device] == ExceptionGranted
                                 then db.lifecycle[device := Blocked] else db.lifecycle)
            && |db'.audit| == |db.audit| + 1 && db'.waves == db.waves && db'.latest == db.latest
  {
  }

  /** What a sweep over the listed exceptions of one device leaves of `db`. */
  ghost predicate Swept(db: Database, device: DeviceId, ids: seq<ExceptionId>, after: Database) {
    && after.exceptions.Keys == db.exceptions.Keys
    && (forall e :: e in db.exceptions ==>
          after.exceptions[e] == if e in ids then db.exceptions[e].(state := Expired) else db.exceptions[e])
    && after.lifecycle == (if ids != [] && device in db.lifecycle && db.lifecycle[device] == ExceptionGranted
                           then db.lifecycle[device := Blocked] else db.lifecycle)
    && |after.audit| == |db.audit| + |ids|
    && after.waves == db.waves && after.latest == db.latest
  }

  lemma SweptOneMore(db: Database, device: DeviceId, ids: seq<ExceptionId>, before: Database, id: ExceptionId,
                     now: Time, actor: Subject)
    requires Swept(db, device, ids, before) && id !in ids
    requires id in db.exceptions && db.exceptions[id].device == device && Overdue(db.exceptions[id], now)
    ensures var t := ExceptionTicket(ExpireException(now), id, ExceptionApproved, actor);
            Swept(db, device, ids + [id], CommitException(before, t))
  {
    assert before.exceptions[id] == db.exceptions[id];
    OneExpiry(before, id, now, actor);
  }

  /**
   The expiry sweep ends exactly the listed exceptions and puts the device back to blocked if it
   was under an exception and at least one exception ended.
  */
  lemma {:induction false} ExpirySweep(db: Database, device: DeviceId, ids: seq<ExceptionId>, now: Time, actor: Subject)
    requires Distinct(ids)
    requires forall e :: e in ids ==>
               e in db.exceptions && db.exceptions[e].device == device && Overdue(db.exceptions[e], now)
    ensures Swept(db, device, ids, ExpireAll(db, ids, now, actor))
  {
    if ids == [] {
    } else {
      var most, last := ids[..|ids| - 1], ids[|ids| - 1];
      assert ids == most + [last] && last !in most;
      ExpirySweep(db, device, most, now, actor);
      SweptOneMore(db, device, most, ExpireAll(db, most, now, actor), last, now, actor);
    }
  }

  /** `done` lists the exceptions ended so far, without repetition; `todo` is the rest of the overdue ones. */
  ghost predicate Expiring(db: Database, device: DeviceId, now: Time, done: seq<ExceptionId>, todo: set<ExceptionId>) {
    && todo <= OverdueOf(db, device, now)
    && Distinct(done) && Elements(done) == OverdueOf(db, device, now) - todo
  }

  /** The sweep has not touched an exception that is still to be ended, and may end it next. */
  lemma {:induction false} ExpiryStep(db: Database, device: DeviceId, now: Time, done: seq<ExceptionId>,
                                      todo: set<ExceptionId>, id: ExceptionId, actor: Subject)
    requires Expiring(db, device, now, done, todo) && id in todo
    ensures Expiring(db, device, now, done + [id], todo - {id})
    ensures var swept := ExpireAll(db, done, now, actor);
            var t := ExceptionTicket(ExpireException(now), id, ExceptionApproved, actor);
            && id in swept.exceptions && swept.exceptions[id].state == ExceptionApproved
            && swept.exceptions[id].device == device
            && ExpireAll(db, done + [id], now, actor) == CommitException(swept, t)
  {
    assert forall e :: e in done ==> e in Elements(done);
    ExpirySweep(db, device, done, now, actor);
    assert (done + [id])[..|done|] == done;
    assert Elements(done + [id]) == Elements(done) + {id};
  }

  /**
   After the sweep that opens an evaluation at `now`, the approved exceptions of the device are in
   force, except in the one instant at which one ends: then it is neither swept nor in force.
  */
  lemma SweepLeavesWhatIsInForce(db: Database, device: DeviceId, ids: seq<ExceptionId>, now: Time, actor: Subject,
                                 e: ExceptionId)
    requires Distinct(ids) && Elements(ids) == OverdueOf(db, device, now)
    requires e in db.exceptions && db.exceptions[e].device == device
    ensures var after := ExpireAll(db, ids, now, actor).exceptions;
            e in after && (after[e].state == ExceptionApproved ==>
                             (InForce(after[e], device, now) <==> now != after[e].expiresAt))
  {
    assert forall x :: x in ids ==> x in Elements(ids);
    ExpirySweep(db, device, ids, now, actor);
    if e !in ids {
      assert e !in OverdueOf(db, device, now);
    }
  }

  /**
   A device that still shows an exception after the sweep has an approved one, and it is in force
   unless it ends at this very instant. So the readiness verdict finds its carve-out.
  */
  lemma GrantedDeviceIsCarvedOut(db: Database, device: DeviceId, ids: seq<ExceptionId>, now: Time, actor: Subject)
    requires UpliftRuns.LifecycleBacked(db) && Distinct(ids) && Elements(ids) == OverdueOf(db, device, now)
    requires var after := ExpireAll(db, ids, now, actor);
             device in after.lifecycle && after.lifecycle[device] == ExceptionGranted
    ensures var after := ExpireAll(db, ids, now, actor);
            exists e :: e in after.exceptions && after.exceptions[e].device == device &&
              after.exceptions[e].state == ExceptionApproved &&
                        (InForce(after.exceptions[e], device, now) || after.exceptions[e].expiresAt == now)
  {
    assert forall x :: x in ids ==> x in Elements(ids);
    ExpirySweep(db, device, ids, now, actor);
    assert UpliftRuns.HoldsException(db, device);
    var e :| e in db.exceptions && db.exceptions[e].state == ExceptionApproved && db.exceptions[e].device == device;
    SweepLeavesWhatIsInForce(db, device, ids, now, actor, e);
    assert ids == [];
  }
}
