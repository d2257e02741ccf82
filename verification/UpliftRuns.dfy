/**
 Runs of the whole system: any number of callers, each between its decision and its guarded
 update, interleaved with every other writer of the lifecycle column. The invariants below hold
 after every sequence of steps from the empty database.
*/
module UpliftRuns {
  import opened Prelude
  import opened UpliftStateMachine
  import opened UpliftGovernance

  datatype SystemState = SystemState(
    db: Database,
    waveTickets: map<Caller, WaveTicket>,
    exceptionTickets: map<Caller, ExceptionTicket>,
    filings: map<Caller, UpliftException>)

  datatype Action =
    | ImportDevice(device: DeviceId, classified: bool)
    | SyncDevice(device: DeviceId)
    | ComplianceVerdict(device: DeviceId, verdict: Lifecycle)
    | ReadinessVerdict(device: DeviceId, readiness: LatestReadiness)
    | DraftWave(wave: WaveId, row: Wave, released: Option<WaveId>)
    | BeginWave(caller: Caller, waveOp: WaveOp, wave: WaveId, actor: Subject)
    | EndWave(caller: Caller)
    | BeginFiling(caller: Caller, request: FilingRequest, maxLifetime: nat)
    | EndFiling(caller: Caller, exc: ExceptionId)
    | BeginException(caller: Caller, excOp: ExceptionOp, exc: ExceptionId, actor: Subject)
    | EndException(caller: Caller)

  const EMPTY: SystemState := SystemState(Database(map[], map[], map[], map[], []), map[], map[], map[])

  /** Import creates a device, or promotes one that is still in its first state. */
  function Imported(db: Database, d: DeviceId, classified: bool): Database {
    if d !in db.lifecycle then
      db.(lifecycle := db.lifecycle[d := if classified then Lifecycle.Classified else Lifecycle.Imported])
    else if classified && db.lifecycle[d] == Lifecycle.Imported then
      db.(lifecycle := db.lifecycle[d := Lifecycle.Classified])
    else db
  }

  /** A persisted readiness row; only the two applicable verdicts write the lifecycle column. */
  function Readied(db: Database, d: DeviceId, r: LatestReadiness): Database {
    if d !in db.lifecycle then db
    else
      var db' := db.(latest := db.latest[d := r]);
      match r.state
      case ReadyState => db'.(lifecycle := db.lifecycle[d := ReadyForUplift])
      case BlockedState => db'.(lifecycle := db.lifecycle[d := Blocked])
      case NotApplicableState => db'
  }

  ghost predicate FreshDraft(db: Database, row: Wave) {
    && row.state == Draft
    && row.submittedBy == row.approvedBy == row.rejectedBy == row.cancelledBy == None
    && row.invalidatedReason == None
    && forall i :: 0 <= i < |row.members| ==> row.members[i].device in db.lifecycle
  }

  ghost function Drafted(db: Database, id: WaveId, row: Wave, released: Option<WaveId>): Database {
    if id in db.waves || !FreshDraft(db, row) then db
    else
      var waves := if released.Some? && released.value in db.waves
                   then db.waves[released.value := db.waves[released.value].(idempotencyKey := None)]
                   else db.waves;
      db.(waves := waves[id := row], audit := db.audit + [AuditRow(WaveObject(id), row.draftedBy, Created)])
  }

  /** One step. A step whose guard fails raises in the controller, leaves the tables alone and carries nothing on. */
  ghost function Step(s: SystemState, a: Action): SystemState {
    match a
    case ImportDevice(d, c) => s.(db := Imported(s.db, d, c))
    case SyncDevice(d) => s.(db := Imported(s.db, d, false))
    case ComplianceVerdict(d, v) =>
      if d in s.db.lifecycle && v in {Lifecycle.Classified, Unknown, Compliant, OutsideTarget}
      then s.(db := s.db.(lifecycle := s.db.lifecycle[d := v])) else s
    case ReadinessVerdict(d, r) => s.(db := Readied(s.db, d, r))
    case DraftWave(id, row, released) => s.(db := Drafted(s.db, id, row, released))
    case BeginWave(c, op, id, actor) =>
      (match DecideWave(s.db, op, id, actor)
       case Ok(t) => s.(waveTickets := s.waveTickets[c := t])
       case Err(_) => s.(waveTickets := s.waveTickets - {c}))
    case EndWave(c) =>
      if c in s.waveTickets
      then s.(db := CommitWave(s.db, s.waveTickets[c]), waveTickets := s.waveTickets - {c}) else s
    case BeginFiling(c, q, maxLifetime) =>
      (match DecideFiling(s.db, q, maxLifetime)
       case Ok(row) => s.(filings := s.filings[c := row])
       case Err(_) => s.(filings := s.filings - {c}))
    case EndFiling(c, id) =>
      if c in s.filings then s.(db := InsertException(s.db, id, s.filings[c]), filings := s.filings - {c}) else s
    case BeginException(c, op, id, actor) =>
      (match DecideException(s.db, op, id, actor)
       case Ok(t) => s.(exceptionTickets := s.exceptionTickets[c := t])
       case Err(_) => s.(exceptionTickets := s.exceptionTickets - {c}))
    case EndException(c) =>
      if c in s.exceptionTickets
      then s.(db := CommitException(s.db, s.exceptionTickets[c]), exceptionTickets := s.exceptionTickets - {c}) else s
  }

  ghost function Run(s: SystemState, actions: seq<Action>): SystemState {
    if actions == [] then s else Step(Run(s, actions[..|actions| - 1]), actions[|actions| - 1])
  }

  // ---- invariants ----------------------------------------------------------

  /** The lifecycle states that only a wave or an exception may put a device into. */
  predicate Parked(state: Lifecycle) {
    state in {ApprovalPending, UpliftApproved, ExceptionGranted}
  }

  ghost predicate HoldsPending(db: Database, d: DeviceId) {
    exists w :: w in db.waves && db.waves[w].state == Submitted && IsMember(db.waves[w].members, d)
  }

  ghost predicate HoldsApproval(db: Database, d: DeviceId) {
    exists w :: w in db.waves && db.waves[w].state == Approved && IsMember(db.waves[w].members, d)
  }

  ghost predicate HoldsException(db: Database, d: DeviceId) {
    exists e :: e in db.exceptions && db.exceptions[e].state == ExceptionApproved && db.exceptions[e].device == d
  }

  /** A parked lifecycle state is always backed by a governance row of the matching kind. */
  ghost predicate LifecycleBacked(db: Database) {
    && (forall d :: d in db.lifecycle && db.lifecycle[d] == ApprovalPending ==> HoldsPending(db, d))
    && (forall d :: d in db.lifecycle && db.lifecycle[d] == UpliftApproved ==> HoldsApproval(db, d))
    && (forall d :: d in db.lifecycle && db.lifecycle[d] == ExceptionGranted ==> HoldsException(db, d))
  }

  /** Separation of duties and the stamps that the state of a wave requires. */
  ghost predicate WaveRowOk(w: Wave) {
    && (w.state == Approved <==> w.approvedBy.Some?)
    && (w.approvedBy.Some? ==> w.approvedBy.value != w.draftedBy)
    && (w.state in {Submitted, Approved, Rejected} ==> w.submittedBy.Some?)
    && (w.state == Draft ==> w.submittedBy.None?)
    && (w.state == Rejected <==> w.rejectedBy.Some?)
    && (w.state == Cancelled <==> w.cancelledBy.Some?)
    && (w.state == Invalidated <==> w.invalidatedReason.Some?)
  }

  ghost predicate ExceptionRowOk(e: UpliftException) {
    && (e.state in {ExceptionApproved, Expired} ==> e.approvedBy.Some?)
    && (e.approvedBy.Some? ==> e.approvedBy.value != e.filedBy)
    && (e.state in {PendingReview, ExceptionRejected} ==> e.approvedBy.None?)
    && e.filedAt < e.expiresAt
  }

  ghost predicate RowsOk(db: Database) {
    && (forall w :: w in db.waves ==> WaveRowOk(db.waves[w]))
    && (forall e :: e in db.exceptions ==> ExceptionRowOk(db.exceptions[e]))
  }

  ghost predicate BothApproved(e: UpliftException, f: UpliftException) {
    e.state == f.state == ExceptionApproved && SameSlot(e, f)
  }

  /** At most one approved exception per device and blocker. */
  ghost predicate OneApprovedPerBlocker(db: Database) {
    forall x, y | x in db.exceptions && y in db.exceptions && BothApproved(db.exceptions[x], db.exceptions[y]) :: x == y
  }

  /** A ticket was issued by the state machine against the row that it names. */
  ghost predicate WaveTicketOk(db: Database, t: WaveTicket) {
    && t.wave in db.waves
    && t.read == ExpectedState(t.op, t.read)
    && (t.read, WaveTarget(t.op)) in WAVE_EDGES
    && (t.op.Approve? ==> t.actor != db.waves[t.wave].draftedBy)
  }

  ghost predicate ExceptionTicketOk(db: Database, t: ExceptionTicket) {
    && t.exc in db.exceptions
    && t.read == ExceptionExpectedState(t.op, t.read)
    && (t.read, ExceptionTarget(t.op)) in EXCEPTION_EDGES
    && (t.op.ApproveException? ==> t.actor != db.exceptions[t.exc].filedBy)
  }

  ghost predicate TicketsOk(s: SystemState) {
    && (forall c :: c in s.waveTickets ==> WaveTicketOk(s.db, s.waveTickets[c]))
    && (forall c :: c in s.exceptionTickets ==> ExceptionTicketOk(s.db, s.exceptionTickets[c]))
    && (forall c :: c in s.filings ==> s.filings[c].state == PendingReview && s.filings[c].approvedBy.None?)
  }

  // ---- audit replay --------------------------------------------------------

  datatype Replay<+S> = NotSeen | At(state: S) | Broken

  /** Follows the audit rows of one wave: a creation, then legal edges that chain. */
  ghost function ReplayWave(audit: seq<AuditRow>, id: WaveId): Replay<WaveState> {
    if audit == [] then NotSeen
    else
      var before := ReplayWave(audit[..|audit| - 1], id);
      var row := audit[|audit| - 1];
      if row.entity != WaveObject(id) then before
      else match row.change
        case Created => if before.NotSeen? then At(Draft) else Broken
        case WaveMoved(b, a) => if before == At(b) && (b, a) in WAVE_EDGES then At(a) else Broken
        case ExceptionMoved(_, _) => Broken
  }

  ghost function ReplayException(audit: seq<AuditRow>, id: ExceptionId): Replay<ExceptionState> {
    if audit == [] then NotSeen
    else
      var before := ReplayException(audit[..|audit| - 1], id);
      var row := audit[|audit| - 1];
      if row.entity != ExceptionObject(id) then before
      else match row.change
        case Created => if before.NotSeen? then At(PendingReview) else Broken
        case WaveMoved(_, _) => Broken
        case ExceptionMoved(b, a) => if before == At(b) && (b, a) in EXCEPTION_EDGES then At(a) else Broken
  }

  ghost predicate AuditReplays(db: Database) {
    && (forall w :: ReplayWave(db.audit, w) == if w in db.waves then At(db.waves[w].state) else NotSeen)
    && (forall e :: ReplayException(db.audit, e) == if e in db.exceptions then At(db.exceptions[e].state) else NotSeen)
  }

  ghost predicate Inv(s: SystemState) {
    && LifecycleBacked(s.db)
    && RowsOk(s.db)
    && OneApprovedPerBlocker(s.db)
    && TicketsOk(s)
    && AuditReplays(s.db)
  }

  // ---- every step keeps the invariants -------------------------------------

  lemma ReplaySnoc(audit: seq<AuditRow>, row: AuditRow)
    ensures forall w :: row.entity != WaveObject(w) ==> ReplayWave(audit + [row], w) == ReplayWave(audit, w)
    ensures forall e :: row.entity != ExceptionObject(e) ==>
              ReplayException(audit + [row], e) == ReplayException(audit, e)
    ensures row.entity.WaveObject? && row.change.Created? && ReplayWave(audit, row.entity.wave) == NotSeen ==>
              ReplayWave(audit + [row], row.entity.wave) == At(Draft)
    ensures row.entity.WaveObject? && row.change.WaveMoved? &&
              ReplayWave(audit, row.entity.wave) == At(row.change.waveBefore) &&
              (row.change.waveBefore, row.change.waveAfter) in WAVE_EDGES ==>
                ReplayWave(audit + [row], row.entity.wave) == At(row.change.waveAfter)
    ensures row.entity.ExceptionObject? && row.change.Created? && ReplayException(audit, row.entity.exc) == NotSeen ==>
              ReplayException(audit + [row], row.entity.exc) == At(PendingReview)
    ensures row.entity.ExceptionObject? && row.change.ExceptionMoved? &&
              ReplayException(audit, row.entity.exc) == At(row.change.excBefore) &&
              (row.change.excBefore, row.change.excAfter) in EXCEPTION_EDGES ==>
                ReplayException(audit + [row], row.entity.exc) == At(row.change.excAfter)
  {
    assert (audit + [row])[..|audit|] == audit;
  }

  lemma CommitWaveKeepsLifecycle(db: Database, t: WaveTicket)
    requires LifecycleBacked(db) && WaveTicketOk(db, t)
    ensures LifecycleBacked(CommitWave(db, t))
  {
    var db' := CommitWave(db, t);
    if WaveGuardHolds(db, t) {
      var w := db.waves[t.wave];
      forall d | d in db'.lifecycle && db'.lifecycle[d] == ApprovalPending
        ensures HoldsPending(db', d)
      {
        if db.lifecycle[d] == ApprovalPending {
          var x :| x in db.waves && db.waves[x].state == Submitted && IsMember(db.waves[x].members, d);
          assert x in db'.waves && db'.waves[x].members == db.waves[x].members;
          assert x != t.wave;
        } else {
          assert db'.waves[t.wave].state == Submitted && IsMember(db'.waves[t.wave].members, d);
        }
      }
      forall d | d in db'.lifecycle && db'.lifecycle[d] == UpliftApproved
        ensures HoldsApproval(db', d)
      {
        if db.lifecycle[d] == UpliftApproved {
          var x :| x in db.waves && db.waves[x].state == Approved && IsMember(db.waves[x].members, d);
          assert x in db'.waves && x != t.wave;
        } else {
          assert db'.waves[t.wave].state == Approved && IsMember(db'.waves[t.wave].members, d);
        }
      }
      forall d | d in db'.lifecycle && db'.lifecycle[d] == ExceptionGranted
        ensures HoldsException(db', d)
      {
        assert HoldsException(db, d);
      }
    }
  }

  lemma CommitWaveKeepsRows(db: Database, t: WaveTicket)
    requires RowsOk(db) && WaveTicketOk(db, t)
    ensures RowsOk(CommitWave(db, t))
  {
  }

  lemma CommitWaveKeepsReplay(db: Database, t: WaveTicket)
    requires WaveTicketOk(db, t) && AuditReplays(db)
    ensures AuditReplays(CommitWave(db, t))
  {
    if WaveGuardHolds(db, t) {
      ReplaySnoc(db.audit, CommitWave(db, t).audit[|db.audit|]);
    }
  }

  lemma CommitExceptionKeepsLifecycle(db: Database, t: ExceptionTicket)
    requires LifecycleBacked(db) && ExceptionTicketOk(db, t)
    ensures LifecycleBacked(CommitException(db, t))
  {
    var db' := CommitException(db, t);
    if ExceptionCommits(db, t) {
      var device := db.exceptions[t.exc].device;
      forall d | d in db'.lifecycle && db'.lifecycle[d] == ApprovalPending
        ensures HoldsPending(db', d)
      {
        assert HoldsPending(db, d);
      }
      forall d | d in db'.lifecycle && db'.lifecycle[d] == UpliftApproved
        ensures HoldsApproval(db', d)
      {
        assert HoldsApproval(db, d);
      }
      forall d | d in db'.lifecycle && db'.lifecycle[d] == ExceptionGranted
        ensures HoldsException(db', d)
      {
        if t.op.ApproveException? && d == device {
          assert db'.exceptions[t.exc].state == ExceptionApproved && db'.exceptions[t.exc].device == d;
        } else {
          var x :| x in db.exceptions && db.exceptions[x].state == ExceptionApproved && db.exceptions[x].device == d;
          assert x in db'.exceptions && x != t.exc;
        }
      }
    }
  }

  lemma CommitExceptionKeepsRows(db: Database, t: ExceptionTicket)
    requires RowsOk(db) && ExceptionTicketOk(db, t) && AuditReplays(db) && OneApprovedPerBlocker(db)
    ensures RowsOk(CommitException(db, t)) && AuditReplays(CommitException(db, t))
    ensures OneApprovedPerBlocker(CommitException(db, t))
  {
    if ExceptionCommits(db, t) {
      ReplaySnoc(db.audit, CommitException(db, t).audit[|db.audit|]);
    }
  }

  /** Rows that only gain backing rows keep every lifecycle state backed. */
  lemma LifecycleFrame(db: Database, db': Database)
    requires LifecycleBacked(db)
    requires forall d | d in db'.lifecycle && Parked(db'.lifecycle[d]) ::
               d in db.lifecycle && db.lifecycle[d] == db'.lifecycle[d]
    requires forall w :: w in db.waves ==> w in db'.waves && db'.waves[w].state == db.waves[w].state &&
                                           db'.waves[w].members == db.waves[w].members
    requires forall e :: e in db.exceptions ==> e in db'.exceptions && db'.exceptions[e] == db.exceptions[e]
    ensures LifecycleBacked(db')
  {
    forall d | d in db'.lifecycle && db'.lifecycle[d] == ApprovalPending ensures HoldsPending(db', d) {
      var w :| w in db.waves && db.waves[w].state == Submitted && IsMember(db.waves[w].members, d);
      assert w in db'.waves;
    }
    forall d | d in db'.lifecycle && db'.lifecycle[d] == UpliftApproved ensures HoldsApproval(db', d) {
      var w :| w in db.waves && db.waves[w].state == Approved && IsMember(db.waves[w].members, d);
      assert w in db'.waves;
    }
    forall d | d in db'.lifecycle && db'.lifecycle[d] == ExceptionGranted ensures HoldsException(db', d) {
      assert HoldsException(db, d);
    }
  }

  /** Tickets stay good as long as rows are kept and their owners do not change. */
  lemma TicketsFrame(s: SystemState, db': Database)
    requires TicketsOk(s)
    requires forall w :: w in s.db.waves ==> w in db'.waves && db'.waves[w].draftedBy == s.db.waves[w].draftedBy
    requires forall e :: e in s.db.exceptions ==>
               e in db'.exceptions && db'.exceptions[e].filedBy == s.db.exceptions[e].filedBy
    ensures TicketsOk(s.(db := db'))
  {
  }

  lemma InsertKeepsTables(db: Database, id: ExceptionId, row: UpliftException)
    requires LifecycleBacked(db) && RowsOk(db) && OneApprovedPerBlocker(db) && AuditReplays(db)
    requires row.state == PendingReview && row.approvedBy.None?
    ensures var db' := InsertException(db, id, row);
            LifecycleBacked(db') && RowsOk(db') && OneApprovedPerBlocker(db') && AuditReplays(db')
  {
    InsertKeepsLifecycle(db, id, row);
    InsertKeepsRows(db, id, row);
    InsertKeepsReplay(db, id, row);
  }

  lemma InsertKeepsLifecycle(db: Database, id: ExceptionId, row: UpliftException)
    requires LifecycleBacked(db)
    ensures LifecycleBacked(InsertException(db, id, row))
  {
    LifecycleFrame(db, InsertException(db, id, row));
  }

  lemma InsertKeepsRows(db: Database, id: ExceptionId, row: UpliftException)
    requires RowsOk(db) && OneApprovedPerBlocker(db) && row.state == PendingReview && row.approvedBy.None?
    ensures RowsOk(InsertException(db, id, row)) && OneApprovedPerBlocker(InsertException(db, id, row))
  {
  }

  lemma InsertKeepsReplay(db: Database, id: ExceptionId, row: UpliftException)
    requires AuditReplays(db) && row.state == PendingReview
    ensures AuditReplays(InsertException(db, id, row))
  {
    var db' := InsertException(db, id, row);
    if db' != db {
      ReplaySnoc(db.audit, db'.audit[|db.audit|]);
    }
  }

  lemma FilingKeepsInv(s: SystemState, a: Action)
    requires Inv(s) && a.EndFiling?
    ensures Inv(Step(s, a))
  {
    if a.caller in s.filings {
      InsertKeepsTables(s.db, a.exc, s.filings[a.caller]);
      TicketsFrame(s, InsertException(s.db, a.exc, s.filings[a.caller]));
    }
  }

  lemma DraftKeepsInv(s: SystemState, a: Action)
    requires Inv(s) && a.DraftWave?
    ensures Inv(Step(s, a))
  {
    var db, db' := s.db, Step(s, a).db;
    if db' != db {
      DraftKeepsTables(db, a.wave, a.row, a.released);
      assert TicketsOk(Step(s, a)) by { TicketsFrame(s, db'); }
    }
  }

  lemma DraftKeepsReplay(db: Database, id: WaveId, row: Wave, released: Option<WaveId>)
    requires AuditReplays(db)
    ensures AuditReplays(Drafted(db, id, row, released))
  {
    var db' := Drafted(db, id, row, released);
    if db' != db {
      ReplaySnoc(db.audit, db'.audit[|db.audit|]);
    }
  }

  lemma DraftKeepsLifecycle(db: Database, id: WaveId, row: Wave, released: Option<WaveId>)
    requires LifecycleBacked(db)
    ensures LifecycleBacked(Drafted(db, id, row, released))
  {
    LifecycleFrame(db, Drafted(db, id, row, released));
  }

  lemma DraftKeepsRows(db: Database, id: WaveId, row: Wave, released: Option<WaveId>)
    requires RowsOk(db)
    ensures RowsOk(Drafted(db, id, row, released))
  {
  }

  lemma DraftKeepsTables(db: Database, id: WaveId, row: Wave, released: Option<WaveId>)
    requires LifecycleBacked(db) && RowsOk(db) && OneApprovedPerBlocker(db) && AuditReplays(db)
    ensures var db' := Drafted(db, id, row, released);
            LifecycleBacked(db') && RowsOk(db') && OneApprovedPerBlocker(db') && AuditReplays(db')
  {
    DraftKeepsLifecycle(db, id, row, released);
    DraftKeepsRows(db, id, row, released);
    DraftKeepsReplay(db, id, row, released);
    assert Drafted(db, id, row, released).exceptions == db.exceptions;
  }

  lemma OtherWritersKeepInv(s: SystemState, a: Action)
    requires Inv(s) && (a.ImportDevice? || a.SyncDevice? || a.ComplianceVerdict? || a.ReadinessVerdict?)
    ensures Inv(Step(s, a))
  {
    var db, db' := s.db, Step(s, a).db;
    OtherWritersNeverPark(s, a);
    LifecycleFrame(db, db');
    TicketsFrame(s, db');
    assert RowsOk(db') && OneApprovedPerBlocker(db') && AuditReplays(db');
  }

  /** Import, NetBox, compliance and readiness write neither governance rows nor a parked state. */
  lemma OtherWritersNeverPark(s: SystemState, a: Action)
    requires a.ImportDevice? || a.SyncDevice? || a.ComplianceVerdict? || a.ReadinessVerdict?
    ensures var s' := Step(s, a);
            && s' == s.(db := s'.db)
            && s'.db.waves == s.db.waves && s'.db.exceptions == s.db.exceptions && s'.db.audit == s.db.audit
            && forall d | d in s'.db.lifecycle && Parked(s'.db.lifecycle[d]) ::
                 d in s.db.lifecycle && s.db.lifecycle[d] == s'.db.lifecycle[d]
  {
    match a
    case ImportDevice(_, _) =>
    case SyncDevice(_) =>
    case ComplianceVerdict(_, _) =>
    case ReadinessVerdict(_, _) =>
    case _ =>
  }

  lemma BeginKeepsInv(s: SystemState, a: Action)
    requires Inv(s) && (a.BeginWave? || a.BeginException? || a.BeginFiling?)
    ensures Inv(Step(s, a))
  {
    BeginKeepsTickets(s, a);
  }

  lemma BeginKeepsTickets(s: SystemState, a: Action)
    requires TicketsOk(s) && (a.BeginWave? || a.BeginException? || a.BeginFiling?)
    ensures TicketsOk(Step(s, a)) && Step(s, a).db == s.db
  {
    if a.BeginWave? {
      BeginWaveKeepsTickets(s, a);
    } else if a.BeginException? {
      BeginExceptionKeepsTickets(s, a);
    }
  }

  lemma BeginWaveKeepsTickets(s: SystemState, a: Action)
    requires TicketsOk(s) && a.BeginWave?
    ensures TicketsOk(Step(s, a)) && Step(s, a).db == s.db
  {
    DecideIssuesGoodTickets(s.db, a.waveOp, a.wave, a.actor);
  }

  lemma BeginExceptionKeepsTickets(s: SystemState, a: Action)
    requires TicketsOk(s) && a.BeginException?
    ensures TicketsOk(Step(s, a)) && Step(s, a).db == s.db
  {
    DecideIssuesGoodExceptionTickets(s.db, a.excOp, a.exc, a.actor);
  }

  lemma DecideIssuesGoodTickets(db: Database, op: WaveOp, id: WaveId, actor: Subject)
    ensures DecideWave(db, op, id, actor).Ok? ==> WaveTicketOk(db, DecideWave(db, op, id, actor).value)
  {
  }

  lemma DecideIssuesGoodExceptionTickets(db: Database, op: ExceptionOp, id: ExceptionId, actor: Subject)
    ensures DecideException(db, op, id, actor).Ok? ==> ExceptionTicketOk(db, DecideException(db, op, id, actor).value)
  {
  }

  lemma CommitWaveKeepsTables(db: Database, t: WaveTicket)
    requires LifecycleBacked(db) && RowsOk(db) && OneApprovedPerBlocker(db) && AuditReplays(db) && WaveTicketOk(db, t)
    ensures var db' := CommitWave(db, t);
            LifecycleBacked(db') && RowsOk(db') && OneApprovedPerBlocker(db') && AuditReplays(db')
  {
    CommitWaveKeepsLifecycle(db, t);
    CommitWaveKeepsRows(db, t);
    CommitWaveKeepsReplay(db, t);
    assert CommitWave(db, t).exceptions == db.exceptions;
  }

  lemma EndWaveKeepsTickets(s: SystemState, c: Caller)
    requires TicketsOk(s)
    ensures TicketsOk(Step(s, EndWave(c)))
  {
    if c in s.waveTickets {
      TicketsFrame(s, CommitWave(s.db, s.waveTickets[c]));
    }
  }

  lemma EndWaveKeepsInv(s: SystemState, a: Action)
    requires Inv(s) && a.EndWave?
    ensures Inv(Step(s, a))
  {
    EndWaveKeepsTickets(s, a.caller);
    if a.caller in s.waveTickets {
      CommitWaveKeepsTables(s.db, s.waveTickets[a.caller]);
    }
  }

  lemma EndExceptionKeepsInv(s: SystemState, a: Action)
    requires Inv(s) && a.EndException?
    ensures Inv(Step(s, a))
  {
    EndExceptionKeepsTickets(s, a.caller);
    if a.caller in s.exceptionTickets {
      CommitExceptionKeepsLifecycle(s.db, s.exceptionTickets[a.caller]);
      CommitExceptionKeepsRows(s.db, s.exceptionTickets[a.caller]);
    }
  }

  lemma EndExceptionKeepsTickets(s: SystemState, c: Caller)
    requires TicketsOk(s)
    ensures TicketsOk(Step(s, EndException(c)))
  {
    if c in s.exceptionTickets {
      TicketsFrame(s, CommitException(s.db, s.exceptionTickets[c]));
    }
  }

  lemma StepKeepsInv(s: SystemState, a: Action)
    requires Inv(s)
    ensures Inv(Step(s, a))
  {
    match a
    case DraftWave(_, _, _) => DraftKeepsInv(s, a);
    case BeginWave(_, _, _, _) => BeginKeepsInv(s, a);
    case EndWave(_) => EndWaveKeepsInv(s, a);
    case BeginFiling(_, _, _) => BeginKeepsInv(s, a);
    case EndFiling(_, _) => FilingKeepsInv(s, a);
    case BeginException(_, _, _, _) => BeginKeepsInv(s, a);
    case EndException(_) => EndExceptionKeepsInv(s, a);
    case _ => OtherWritersKeepInv(s, a);
  }

  /** Main result: whatever the callers do, in whatever order, the invariants hold. */
  lemma {:induction false} EveryRunIsSafe(actions: seq<Action>)
    ensures Inv(Run(EMPTY, actions))
  {
    if actions == [] {
    } else {
      EveryRunIsSafe(actions[..|actions| - 1]);
      StepKeepsInv(Run(EMPTY, actions[..|actions| - 1]), actions[|actions| - 1]);
    }
  }
}
