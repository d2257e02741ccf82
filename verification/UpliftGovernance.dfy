/**
 Uplift governance as a transition system over the shared tables: waves, exceptions, the
 lifecycle column of devices, and the uplift rows of the audit log.

 Every wave or exception move takes two steps, as in the controllers: a caller reads the row
 and decides, and later issues an UPDATE guarded by the state it expects. Any number of callers
 interleave, together with every other writer of the lifecycle column.
*/
module UpliftGovernance {
  import opened Prelude
  import opened UpliftStateMachine

  type DeviceId = nat
  type WaveId = nat
  type ExceptionId = nat
  type Caller = nat

  /** Seconds. */
  type Time = int

  datatype Lifecycle =
    | Imported | Classified | TargetDefined | Compliant | OutsideTarget | Unknown
    | ReadyForUplift | Blocked | UpliftPlanned | ApprovalPending | UpliftApproved | ExceptionGranted

  // ---- rows ----------------------------------------------------------------

  datatype Member = Member(device: DeviceId, position: nat, readinessRef: Option<nat>,
                           snapshotTarget: Option<string>, snapshotObserved: Option<string>)

  datatype Wave = Wave(
    state: WaveState, plan: nat, idempotencyKey: Option<string>, draftedBy: Subject, draftedAt: Time,
    targetVersion: string, platformFamily: string, members: seq<Member>,
    submittedBy: Option<Subject>, approvedBy: Option<Subject>, rejectedBy: Option<Subject>,
    cancelledBy: Option<Subject>, citation: Option<string>, invalidatedReason: Option<string>)

  datatype BlockerKey = RuleKey(ruleId: nat) | SyntheticKey(kind: string)

  datatype UpliftException = UpliftException(
    state: ExceptionState, device: DeviceId, blocker: BlockerKey, filedBy: Subject,
    filedAt: Time, expiresAt: Time, justification: string, approvedBy: Option<Subject>)

  datatype ReadinessState = ReadyState | BlockedState | NotApplicableState

  datatype BlockerRef = BlockerRef(ruleId: Option<nat>, kind: string)

  datatype LatestReadiness = LatestReadiness(state: ReadinessState, blockers: seq<BlockerRef>)

  datatype AuditObject = WaveObject(wave: WaveId) | ExceptionObject(exc: ExceptionId)

  datatype AuditChange =
    | Created
    | WaveMoved(waveBefore: WaveState, waveAfter: WaveState)
    | ExceptionMoved(excBefore: ExceptionState, excAfter: ExceptionState)

  datatype AuditRow = AuditRow(entity: AuditObject, actor: Subject, change: AuditChange)

  datatype Database = Database(
    lifecycle: map<DeviceId, Lifecycle>,
    latest: map<DeviceId, LatestReadiness>,
    waves: map<WaveId, Wave>,
    exceptions: map<ExceptionId, UpliftException>,
    audit: seq<AuditRow>)

  predicate IsMember(members: seq<Member>, d: DeviceId) {
    exists i :: 0 <= i < |members| && members[i].device == d
  }

  lemma IsMemberSnoc(members: seq<Member>, m: Member)
    ensures forall d :: IsMember(members + [m], d) <==> IsMember(members, d) || m.device == d
  {
    forall d | IsMember(members, d) ensures IsMember(members + [m], d) {
      var i :| 0 <= i < |members| && members[i].device == d;
      assert (members + [m])[i].device == d;
    }
    assert (members + [m])[|members|] == m;
  }

  /** Every listed device that is in `from` moves to `to`; all other devices keep their state. */
  function MoveMembers(lifecycle: map<DeviceId, Lifecycle>, members: seq<Member>, from: Lifecycle, to: Lifecycle)
    : map<DeviceId, Lifecycle>
  {
    map d | d in lifecycle :: if lifecycle[d] == from && IsMember(members, d) then to else lifecycle[d]
  }

  /** Visiting one more member, which is how the controllers loop over a wave. */
  lemma MoveMembersSnoc(lifecycle: map<DeviceId, Lifecycle>, members: seq<Member>, m: Member, from: Lifecycle,
                        to: Lifecycle)
    requires from != to
    ensures var before := MoveMembers(lifecycle, members, from, to);
            MoveMembers(lifecycle, members + [m], from, to) ==
            if m.device in before && before[m.device] == from then before[m.device := to] else before
  {
    IsMemberSnoc(members, m);
    var before := MoveMembers(lifecycle, members, from, to);
    var after := MoveMembers(lifecycle, members + [m], from, to);
    forall d | d in lifecycle ensures after[d] == if d == m.device && before[d] == from then to else before[d] {
    }
  }

  /** Of the devices exactly the members that stood at `from` stand at `to` afterwards; no other one moved. */
  ghost predicate MembersMoved(before: map<DeviceId, Lifecycle>, after: map<DeviceId, Lifecycle>, members: seq<Member>,
                               from: Lifecycle, to: Lifecycle)
  {
    && after.Keys == before.Keys
    && forall d :: d in before ==>
         after[d] == if before[d] == from && exists i :: 0 <= i < |members| && members[i].device == d then to
                     else before[d]
  }

  // ---- wave moves ----------------------------------------------------------

  datatype WaveOp =
    | Submit | Approve(citation: string) | Reject(citation: string) | Cancel(reason: string)
    | Invalidate(reason: string)

  datatype GovernanceError =
    | NotFound | Refused(cause: DecideError) | StateMismatch(expected: WaveState, actual: WaveState)
    | ExceptionMismatch(expectedState: ExceptionState, actualState: ExceptionState)
    | DeviceNotBlocked | BlockerNotInLatestVerdict | InvalidExpiry | AlreadyActive
    | NotInvalidatable | NotOverdue | ConstraintViolated

  /** What one caller carries from its read to its guarded update. */
  datatype WaveTicket = WaveTicket(op: WaveOp, wave: WaveId, read: WaveState, actor: Subject)

  function WaveTarget(op: WaveOp): WaveState {
    match op
    case Submit => Submitted
    case Approve(_) => Approved
    case Reject(_) => Rejected
    case Cancel(_) => Cancelled
    case Invalidate(_) => Invalidated
  }

  /** The state named in the WHERE clause; three of the five operations hard-code it. */
  function ExpectedState(op: WaveOp, read: WaveState): WaveState {
    match op
    case Submit => Draft
    case Approve(_) => Submitted
    case Reject(_) => Submitted
    case Cancel(_) => read
    case Invalidate(_) => read
  }

  function WaveActorKind(op: WaveOp, actor: Subject, drafter: Subject): ActorKind {
    match op
    case Submit => Drafter
    case Approve(_) => Approver
    case Reject(_) => if actor == drafter then Drafter else Approver
    case Cancel(_) => Drafter
    case Invalidate(_) => System
  }

  /** First step: read the row and decide. Invalidation only checks that the wave is not terminal. */
  function DecideWave(db: Database, op: WaveOp, id: WaveId, actor: Subject): Result<WaveTicket, GovernanceError> {
    if id !in db.waves then Err(NotFound)
    else
      var w := db.waves[id];
      if op.Invalidate? then
        if w.state in {Draft, Submitted} then Ok(WaveTicket(op, id, w.state, actor)) else Err(NotInvalidatable)
      else
        match WaveDecide(w.state, WaveTarget(op), WaveActorKind(op, actor, w.draftedBy), actor, w.draftedBy)
        case Err(e) => Err(Refused(e))
        case Ok(_) => Ok(WaveTicket(op, id, w.state, actor))
  }

  function StampWave(w: Wave, op: WaveOp, actor: Subject): Wave {
    match op
    case Submit => w.(state := Submitted, submittedBy := Some(actor))
    case Approve(c) => w.(state := Approved, approvedBy := Some(actor), citation := Some(c))
    case Reject(c) => w.(state := Rejected, rejectedBy := Some(actor), citation := Some(c))
    case Cancel(r) => w.(state := Cancelled, cancelledBy := Some(actor), citation := Some(r))
    case Invalidate(r) => w.(state := Invalidated, invalidatedReason := Some(r))
  }

  function WaveLifecycleEffect(lifecycle: map<DeviceId, Lifecycle>, members: seq<Member>, op: WaveOp, read: WaveState)
    : map<DeviceId, Lifecycle>
  {
    match op
    case Submit => MoveMembers(lifecycle, members, ReadyForUplift, ApprovalPending)
    case Approve(_) => MoveMembers(lifecycle, members, ApprovalPending, UpliftApproved)
    case Reject(_) => MoveMembers(lifecycle, members, ApprovalPending, ReadyForUplift)
    case _ => if read == Submitted then MoveMembers(lifecycle, members, ApprovalPending, ReadyForUplift) else lifecycle
  }

  predicate WaveGuardHolds(db: Database, t: WaveTicket) {
    t.wave in db.waves && db.waves[t.wave].state == ExpectedState(t.op, t.read)
  }

  /** Second step: the guarded update with its member moves and its audit row, or nothing at all. */
  function CommitWave(db: Database, t: WaveTicket): Database {
    if !WaveGuardHolds(db, t) then db
    else
      var w := db.waves[t.wave];
      db.(waves := db.waves[t.wave := StampWave(w, t.op, t.actor)],
          lifecycle := WaveLifecycleEffect(db.lifecycle, w.members, t.op, t.read),
          audit := db.audit + [AuditRow(WaveObject(t.wave), t.actor,
                                        WaveMoved(ExpectedState(t.op, t.read), WaveTarget(t.op)))])
  }

  // ---- exception moves -----------------------------------------------------

  datatype ExceptionOp = ApproveException | RejectException | WithdrawException | ExpireException(now: Time)

  datatype ExceptionTicket = ExceptionTicket(op: ExceptionOp, exc: ExceptionId, read: ExceptionState, actor: Subject)

  const ACTIVE_EXCEPTION_STATES: set<ExceptionState> := {PendingReview, ExceptionApproved}

  function ExceptionTarget(op: ExceptionOp): ExceptionState {
    match op
    case ApproveException => ExceptionApproved
    case RejectException => ExceptionRejected
    case WithdrawException => Withdrawn
    case ExpireException(_) => Expired
  }

  function ExceptionExpectedState(op: ExceptionOp, read: ExceptionState): ExceptionState {
    match op
    case ApproveException => PendingReview
    case RejectException => PendingReview
    case WithdrawException => read
    case ExpireException(_) => ExceptionApproved
  }

  predicate Overdue(e: UpliftException, now: Time) {
    e.state == ExceptionApproved && e.expiresAt < now
  }

  predicate ActiveAt(e: UpliftException, now: Time) {
    e.state == ExceptionApproved && e.expiresAt > now
  }

  function DecideException(db: Database, op: ExceptionOp, id: ExceptionId, actor: Subject)
    : Result<ExceptionTicket, GovernanceError>
  {
    if id !in db.exceptions then Err(NotFound)
    else
      var e := db.exceptions[id];
      if op.ExpireException? then
        if Overdue(e, op.now) then Ok(ExceptionTicket(op, id, e.state, actor)) else Err(NotOverdue)
      else
        var kind := if op.WithdrawException? then Filer else Approver;
        match ExceptionDecide(e.state, ExceptionTarget(op), kind, actor, e.filedBy)
        case Err(c) => Err(Refused(c))
        case Ok(_) =>
          if op.ApproveException? && (e.device !in db.lifecycle || db.lifecycle[e.device] != Blocked) then
            Err(DeviceNotBlocked)
          else Ok(ExceptionTicket(op, id, e.state, actor))
  }

  predicate ExceptionGuardHolds(db: Database, t: ExceptionTicket) {
    t.exc in db.exceptions && db.exceptions[t.exc].state == ExceptionExpectedState(t.op, t.read)
  }

  /** Two exceptions cover the same blocker of the same device. */
  predicate SameSlot(e: UpliftException, f: UpliftException) {
    e.device == f.device && e.blocker == f.blocker
  }

  /** The partial unique index: one approved exception per device and blocker. */
  predicate IndexRefuses(exceptions: map<ExceptionId, UpliftException>, id: ExceptionId, row: UpliftException) {
    row.state == ExceptionApproved &&
    exists x :: x in exceptions && x != id && exceptions[x].state == ExceptionApproved && SameSlot(exceptions[x], row)
  }

  /** The row that the guarded update writes. */
  function StampException(e: UpliftException, t: ExceptionTicket): UpliftException {
    if t.op.ApproveException? then e.(state := ExceptionApproved, approvedBy := Some(t.actor))
    else e.(state := ExceptionTarget(t.op))
  }

  /** The stored state is the expected one, and the index lets the new row in. */
  predicate ExceptionCommits(db: Database, t: ExceptionTicket) {
    ExceptionGuardHolds(db, t) && !IndexRefuses(db.exceptions, t.exc, StampException(db.exceptions[t.exc], t))
  }

  function ExceptionLifecycleEffect(lifecycle: map<DeviceId, Lifecycle>, device: DeviceId, t: ExceptionTicket)
    : map<DeviceId, Lifecycle>
  {
    if device !in lifecycle then lifecycle
    else match t.op
      case ApproveException => lifecycle[device := ExceptionGranted]
      case RejectException => lifecycle
      case _ =>
        if t.read == ExceptionApproved && lifecycle[device] == ExceptionGranted then lifecycle[device := Blocked]
        else lifecycle
  }

  function CommitException(db: Database, t: ExceptionTicket): Database {
    if !ExceptionCommits(db, t) then db
    else
      var e := db.exceptions[t.exc];
      db.(exceptions := db.exceptions[t.exc := StampException(e, t)],
          lifecycle := ExceptionLifecycleEffect(db.lifecycle, e.device, t),
          audit := db.audit + [AuditRow(ExceptionObject(t.exc), t.actor,
                                        ExceptionMoved(ExceptionExpectedState(t.op, t.read), ExceptionTarget(t.op)))])
  }

  predicate BlockerInReadiness(latest: LatestReadiness, key: BlockerKey) {
    exists i :: 0 <= i < |latest.blockers| &&
      match key
      case RuleKey(r) => latest.blockers[i].ruleId == Some(r)
      case SyntheticKey(k) => latest.blockers[i].ruleId == None && latest.blockers[i].kind == k
  }

  predicate Conflicts(e: UpliftException, device: DeviceId, key: BlockerKey) {
    e.device == device && e.state in ACTIVE_EXCEPTION_STATES && e.blocker == key
  }

  /** The guards of filing, in the order the controller checks them. */
  function CheckFiling(db: Database, device: DeviceId, key: BlockerKey, now: Time, expiresAt: Time, maxLifetime: nat)
    : Option<GovernanceError>
  {
    if device !in db.lifecycle then Some(NotFound)
    else if db.lifecycle[device] != Blocked then Some(DeviceNotBlocked)
    else if device !in db.latest || db.latest[device].state != BlockedState then Some(DeviceNotBlocked)
    else if !BlockerInReadiness(db.latest[device], key) then Some(BlockerNotInLatestVerdict)
    else if exists x :: x in db.exceptions && Conflicts(db.exceptions[x], device, key) then Some(AlreadyActive)
    else if expiresAt <= now || expiresAt > now + maxLifetime then Some(InvalidExpiry)
    else None
  }

  /** What a filing asks for. */
  datatype FilingRequest = FilingRequest(device: DeviceId, blocker: BlockerKey, justification: string, actor: Subject,
                                         now: Time, expiresAt: Time)

  function FiledRow(q: FilingRequest): UpliftException {
    UpliftException(PendingReview, q.device, q.blocker, q.actor, q.now, q.expiresAt, q.justification, None)
  }

  /** First step of filing: read the tables, check the guards, and prepare the row. */
  function DecideFiling(db: Database, q: FilingRequest, maxLifetime: nat): Result<UpliftException, GovernanceError> {
    match CheckFiling(db, q.device, q.blocker, q.now, q.expiresAt, maxLifetime)
    case Some(e) => Err(e)
    case None => Ok(FiledRow(q))
  }

  const MIN_JUSTIFICATION: nat := 20
  const MAX_JUSTIFICATION: nat := 2000
  const MAX_LIFETIME_DAYS: int := 365

  const SYNTHETIC_KINDS: set<string> := {"missing_upgrade_path", "missing_observation_field"}

  /** The check constraints of the table. */
  predicate TableAccepts(row: UpliftException) {
    && (row.blocker.SyntheticKey? ==> row.blocker.kind in SYNTHETIC_KINDS)
    && MIN_JUSTIFICATION <= |row.justification| <= MAX_JUSTIFICATION
    && row.filedAt < row.expiresAt <= row.filedAt + MAX_LIFETIME_DAYS * SECONDS_PER_DAY
  }

  /** Second step of filing: the insert, which no unique index guards, with its audit row. */
  function InsertException(db: Database, id: ExceptionId, row: UpliftException): Database {
    if id in db.exceptions || !TableAccepts(row) then db
    else db.(exceptions := db.exceptions[id := row],
             audit := db.audit + [AuditRow(ExceptionObject(id), row.filedBy, Created)])
  }

  /** Both steps at once. */
  function FileException(db: Database, id: ExceptionId, q: FilingRequest, maxLifetime: nat): Database {
    match DecideFiling(db, q, maxLifetime)
    case Err(_) => db
    case Ok(row) => InsertException(db, id, row)
  }
}
