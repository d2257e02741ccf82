/**
 A whole reload as a run of the uplift system: the writes of the pass over the affected devices, and
 the invalidation of the open waves that hold one of them. So whatever holds along every run holds
 across a reload too.
*/
module ReloadRuns {
  import opened Prelude
  import opened Prerequisites
  import opened UpliftGovernance
  import opened UpliftStateMachine
  import opened UpliftRuns
  import opened ReloadPass
  import Compliance
  import ComplianceTheorems
  import Readiness
  import UpliftStore
  import UpliftTheorems

  function NameOf(l: Lifecycle): string {
    match l
    case Imported => "imported"
    case Classified => "classified"
    case TargetDefined => "target_defined"
    case Compliant => "compliant"
    case OutsideTarget => "outside_target"
    case Unknown => "unknown"
    case ReadyForUplift => "ready_for_uplift"
    case Blocked => "blocked"
    case UpliftPlanned => "uplift_planned"
    case ApprovalPending => "approval_pending"
    case UpliftApproved => "approved"
    case ExceptionGranted => "exception_approved"
  }

  function KindName(k: BlockerKind): string {
    match k
    case MinRamMb => "min_ram_mb"
    case MinDiskMb => "min_disk_mb"
    case HardwareRevisionIn => "hardware_revision_in"
    case MinCurrentVersion => "min_current_version"
    case IntermediateVersionRequired => "intermediate_version_required"
    case MissingUpgradePath => "missing_upgrade_path"
    case LicensePresent => "license_present"
    case NotInState => "not_in_state"
    case RegionIn => "region_in"
    case MissingObservationField => "missing_observation_field"
    case TaggedWith => "tagged_with"
  }

  /** A readiness row as the exception controller reads it. */
  function LatestOf(row: Readiness.Row): LatestReadiness {
    LatestReadiness(match row.state
                    case ReadyForUplift => ReadyState
                    case Blocked => BlockedState
                    case NotApplicable => NotApplicableState,
                    seq(|row.blockers|, i requires 0 <= i < |row.blockers| =>
                      BlockerRef(row.blockers[i].ruleId, KindName(row.blockers[i].kind))))
  }

  /** The lifecycle that a compliance verdict writes. */
  function Judgement(s: Compliance.State): Lifecycle {
    match s
    case Compliant => Lifecycle.Compliant
    case OutsideTarget => Lifecycle.OutsideTarget
    case UnknownFirmware => Lifecycle.Unknown
    case Classified => Lifecycle.Classified
    case TargetDefined => Lifecycle.TargetDefined
  }

  /** The writes of one visit, as steps of the system: two assessments, and a readiness row if there is a new one. */
  ghost function VisitActions(env: Compliance.Env, base: Readiness.Env, v: View): seq<Action> {
    AssessActions(v.device.id, AssessedAs(env, v.device), AssessedAs(env, ComplianceTheorems.Settle(env, v.device))) +
    AnswerActions(v.device.id, v.readiness, ReadinessOf(base, Rejudged(env, v)))
  }

  ghost function AssessedAs(env: Compliance.Env, d: Device): Lifecycle {
    Judgement(Compliance.AssessIn(env, d).state)
  }

  ghost function AssessActions(id: nat, first: Lifecycle, second: Lifecycle): seq<Action> {
    [ComplianceVerdict(id, first), ComplianceVerdict(id, second)]
  }

  ghost function AnswerActions(id: nat, readiness: seq<Readiness.Row>,
                               judged: Result<Readiness.Row, Readiness.EvaluateError>): seq<Action>
  {
    if News(readiness, judged) then [ReadinessVerdict(id, LatestOf(judged.value))] else []
  }

  /** The device table and the lifecycle column of the governance tables are the same column. */
  ghost predicate Mirrors(devices: map<nat, Device>, lifecycle: map<DeviceId, Lifecycle>) {
    devices.Keys == lifecycle.Keys && forall id :: id in devices ==> devices[id].lifecycle == NameOf(lifecycle[id])
  }

  lemma {:induction false} RunBoth(s: SystemState, a: seq<Action>, b: seq<Action>)
    ensures Run(s, a + b) == Run(Run(s, a), b)
  {
    if b == [] {
      assert a + b == a;
    } else {
      RunBoth(s, a, b[..|b| - 1]);
      assert (a + b)[..|a + b| - 1] == a + b[..|b| - 1];
    }
  }

  lemma RunOne(s: SystemState, a: Action)
    ensures Run(s, [a]) == Step(s, a)
  {
    assert [a][..0] == [];
    assert Run(s, [a][..0]) == s;
  }

  lemma JudgementShows(s: Compliance.State)
    ensures NameOf(Judgement(s)) == Compliance.StateName(s) && !Parked(Judgement(s))
  {
  }

  /** The lifecycles that an assessment writes. */
  predicate Assessable(l: Lifecycle) {
    l in {Lifecycle.Classified, Unknown, Lifecycle.Compliant, Lifecycle.OutsideTarget}
  }

  /** An assessment never finds a target that is merely defined. */
  lemma AssessedStates(env: Compliance.Env, d: Device)
    ensures Assessable(AssessedAs(env, d))
  {
    ComplianceTheorems.StateExactly(env.targets, d, Compliance.Lookup(env.observed, d.id));
  }

  /** The lifecycle in which a visit leaves its device. */
  ghost function EndsAs(env: Compliance.Env, base: Readiness.Env, v: View): Lifecycle {
    LedTo(AssessedAs(env, ComplianceTheorems.Settle(env, v.device)), v.readiness, ReadinessOf(base, Rejudged(env, v)))
  }

  function LedTo(assessed: Lifecycle, readiness: seq<Readiness.Row>,
                 judged: Result<Readiness.Row, Readiness.EvaluateError>): Lifecycle
  {
    if !News(readiness, judged) then assessed
    else
      match judged.value.state
      case ReadyForUplift => Lifecycle.ReadyForUplift
      case Blocked => Lifecycle.Blocked
      case NotApplicable => assessed
  }

  lemma LedToShows(v: View, assessed: Lifecycle, judged: Result<Readiness.Row, Readiness.EvaluateError>)
    requires v.device.lifecycle == NameOf(assessed) && !Parked(assessed)
    ensures NameOf(LedTo(assessed, v.readiness, judged)) == Answered(v, judged).device.lifecycle
    ensures !Parked(LedTo(assessed, v.readiness, judged))
  {
  }

  lemma EndsAsVisited(env: Compliance.Env, base: Readiness.Env, v: View)
    ensures NameOf(EndsAs(env, base, v)) == VisitOne(env, base, v).device.lifecycle
    ensures !Parked(EndsAs(env, base, v))
  {
    var d, j := ComplianceTheorems.Settle(env, v.device), Rejudged(env, v);
    JudgementShows(Compliance.AssessIn(env, d).state);
    LedToShows(j, AssessedAs(env, d), ReadinessOf(base, j));
  }

  /** Two system states differ in the lifecycle and in the latest readiness rows at most. */
  ghost predicate SameGovernance(s: SystemState, t: SystemState) {
    && t == s.(db := t.db)
    && t.db.waves == s.db.waves && t.db.exceptions == s.db.exceptions && t.db.audit == s.db.audit
  }

  lemma AssessingIsARun(s: SystemState, id: nat, first: Lifecycle, second: Lifecycle)
    requires id in s.db.lifecycle
    requires Assessable(first) && Assessable(second)
    ensures var t := Run(s, AssessActions(id, first, second));
            SameGovernance(s, t) && t.db.lifecycle == s.db.lifecycle[id := second]
  {
    VerdictStep(s, id, first);
    VerdictStep(Step(s, ComplianceVerdict(id, first)), id, second);
    UpliftTheorems.RunTwo(s, ComplianceVerdict(id, first), ComplianceVerdict(id, second));
  }

  lemma VerdictStep(s: SystemState, id: nat, l: Lifecycle)
    requires id in s.db.lifecycle && Assessable(l)
    ensures Step(s, ComplianceVerdict(id, l)) == s.(db := s.db.(lifecycle := s.db.lifecycle[id := l]))
  {
  }

  lemma VisitIsARun(env: Compliance.Env, base: Readiness.Env, s: SystemState, v: View)
    requires v.device.id in s.db.lifecycle
    ensures var t := Run(s, VisitActions(env, base, v));
            SameGovernance(s, t) && t.db.lifecycle == s.db.lifecycle[v.device.id := EndsAs(env, base, v)]
  {
    var id, d := v.device.id, ComplianceTheorems.Settle(env, v.device);
    AssessedStates(env, v.device);
    AssessedStates(env, d);
    AssessedThenAnswered(s, id, AssessedAs(env, v.device), AssessedAs(env, d), v.readiness,
                         ReadinessOf(base, Rejudged(env, v)));
  }

  lemma AssessedThenAnswered(s: SystemState, id: nat, first: Lifecycle, second: Lifecycle,
                             readiness: seq<Readiness.Row>, judged: Result<Readiness.Row, Readiness.EvaluateError>)
    requires id in s.db.lifecycle
    requires Assessable(first) && Assessable(second)
    ensures var t := Run(s, AssessActions(id, first, second) + AnswerActions(id, readiness, judged));
            SameGovernance(s, t) && t.db.lifecycle == s.db.lifecycle[id := LedTo(second, readiness, judged)]
  {
    var a, b := AssessActions(id, first, second), AnswerActions(id, readiness, judged);
    AssessingIsARun(s, id, first, second);
    AnswerIsARun(Run(s, a), id, readiness, judged);
    RunBoth(s, a, b);
  }

  lemma AnswerIsARun(s: SystemState, id: nat, readiness: seq<Readiness.Row>,
                     judged: Result<Readiness.Row, Readiness.EvaluateError>)
    requires id in s.db.lifecycle
    ensures var t := Run(s, AnswerActions(id, readiness, judged));
            SameGovernance(s, t) && t.db.lifecycle == s.db.lifecycle[id := LedTo(s.db.lifecycle[id], readiness, judged)]
  {
    if News(readiness, judged) {
      RunOne(s, ReadinessVerdict(id, LatestOf(judged.value)));
    }
  }

  /** The visits of a pass in some order. */
  ghost function PassActions(env: Compliance.Env, base: Readiness.Env, start: Tables, ids: seq<nat>): seq<Action>
    requires forall id :: id in ids ==> id in start.compliance.devices
  {
    if ids == [] then []
    else
      PassActions(env, base, start, ids[..|ids| - 1]) + VisitActions(env, base, ViewOf(start, ids[|ids| - 1]))
  }

  /** The lifecycle in which a visit would leave each device. */
  ghost function EndsOf(env: Compliance.Env, base: Readiness.Env, start: Tables): map<DeviceId, Lifecycle> {
    map id | id in start.compliance.devices :: EndsAs(env, base, ViewOf(start, id))
  }

  ghost predicate Stands(ends: map<DeviceId, Lifecycle>, before: map<DeviceId, Lifecycle>,
                         after: map<DeviceId, Lifecycle>, ids: seq<nat>, id: nat)
    requires id in ends && id in before && id in after
  {
    after[id] == if id in ids then ends[id] else before[id]
  }

  /** What the visits of these devices make of the system: nothing but their lifecycles moves. */
  ghost predicate Reached(ends: map<DeviceId, Lifecycle>, s: SystemState, t: SystemState, ids: seq<nat>) {
    && SameGovernance(s, t) && ends.Keys == s.db.lifecycle.Keys == t.db.lifecycle.Keys
    && forall id {:trigger Stands(ends, s.db.lifecycle, t.db.lifecycle, ids, id)} | id in ends ::
         Stands(ends, s.db.lifecycle, t.db.lifecycle, ids, id)
  }

  lemma {:induction false} PassIsARun(env: Compliance.Env, base: Readiness.Env, s: SystemState, start: Tables,
                                      ids: seq<nat>)
    requires Compliance.WellKeyed(start.compliance.devices)
    requires start.compliance.devices.Keys == s.db.lifecycle.Keys
    requires forall id :: id in ids ==> id in start.compliance.devices
    ensures Reached(EndsOf(env, base, start), s, Run(s, PassActions(env, base, start, ids)), ids)
  {
    if ids == [] {
      NothingReached(EndsOf(env, base, start), s);
    } else {
      var most, last := ids[..|ids| - 1], ids[|ids| - 1];
      assert ids == most + [last];
      PassIsARun(env, base, s, start, most);
      VisitedOneMore(env, base, start, s, PassActions(env, base, start, most), most, last);
    }
  }

  lemma NothingReached(ends: map<DeviceId, Lifecycle>, s: SystemState)
    requires ends.Keys == s.db.lifecycle.Keys
    ensures Reached(ends, s, s, [])
  {
  }

  lemma VisitedOneMore(env: Compliance.Env, base: Readiness.Env, start: Tables, s: SystemState, done: seq<Action>,
                       most: seq<nat>, last: nat)
    requires Compliance.WellKeyed(start.compliance.devices) && last in start.compliance.devices
    requires Reached(EndsOf(env, base, start), s, Run(s, done), most)
    ensures var visit := VisitActions(env, base, ViewOf(start, last));
            Reached(EndsOf(env, base, start), s, Run(s, done + visit), most + [last])
  {
    var visit := VisitActions(env, base, ViewOf(start, last));
    RunBoth(s, done, visit);
    VisitIsARun(env, base, Run(s, done), ViewOf(start, last));
    ReachedOneMore(EndsOf(env, base, start), s, Run(s, done), Run(Run(s, done), visit), most, last);
  }

  lemma ReachedOneMore(ends: map<DeviceId, Lifecycle>, s: SystemState, m: SystemState, t: SystemState, most: seq<nat>,
                       last: nat)
    requires Reached(ends, s, m, most) && last in ends
    requires SameGovernance(m, t) && t.db.lifecycle == m.db.lifecycle[last := ends[last]]
    ensures Reached(ends, s, t, most + [last])
  {
    forall id | id in ends ensures Stands(ends, s.db.lifecycle, t.db.lifecycle, most + [last], id) {
      assert Stands(ends, s.db.lifecycle, m.db.lifecycle, most, id);
      assert id in most + [last] <==> id in most || id == last;
    }
  }

  // ---- the invalidation that follows ---------------------------------------

  ghost function SweepActions(db: Database, c: Caller, ids: seq<WaveId>, live: set<(string, string)>, actor: Subject)
    : seq<Action>
    requires forall w :: w in ids ==> w in db.waves
  {
    if ids == [] then []
    else
      var last := ids[|ids| - 1];
      SweepActions(db, c, ids[..|ids| - 1], live, actor) +
      [BeginWave(c, Invalidate(UpliftStore.InvalidationReason(live, db.waves[last])), last, actor),
       EndWave(c)]
  }

  lemma InvalidationIsTwoSteps(s: SystemState, c: Caller, id: WaveId, live: set<(string, string)>,
                               actor: Subject)
    requires c !in s.waveTickets && id in s.db.waves && s.db.waves[id].state in {Draft, Submitted}
    ensures var op := Invalidate(UpliftStore.InvalidationReason(live, s.db.waves[id]));
            Run(s, [BeginWave(c, op, id, actor), EndWave(c)]) ==
            s.(db := UpliftStore.InvalidateWave(s.db, id, live, actor))
  {
    var op := Invalidate(UpliftStore.InvalidationReason(live, s.db.waves[id]));
    var a := BeginWave(c, op, id, actor);
    UpliftTheorems.RunTwo(s, a, EndWave(c));
    var t := Step(s, a);
    assert t.waveTickets - {c} == s.waveTickets;
  }

  /** The sweep over the waves is a run of begun and ended invalidations of one caller. */
  lemma {:induction false} SweepIsARun(s: SystemState, c: Caller, ids: seq<WaveId>,
                                       live: set<(string, string)>, actor: Subject)
    requires c !in s.waveTickets && Distinct(ids)
    requires forall w :: w in ids ==> w in s.db.waves && s.db.waves[w].state in {Draft, Submitted}
    ensures Run(s, SweepActions(s.db, c, ids, live, actor)) ==
            s.(db := UpliftStore.InvalidateAll(s.db, ids, live, actor))
  {
    if ids == [] {
    } else {
      var most, last := ids[..|ids| - 1], ids[|ids| - 1];
      SweepIsARun(s, c, most, live, actor);
      UpliftStore.InvalidationSweep(s.db, most, live, actor);
      assert ids == most + [last] && last !in most;
      var op := Invalidate(UpliftStore.InvalidationReason(live, s.db.waves[last]));
      RunBoth(s, SweepActions(s.db, c, most, live, actor),
              [BeginWave(c, op, last, actor), EndWave(c)]);
      InvalidationIsTwoSteps(s.(db := UpliftStore.InvalidateAll(s.db, most, live, actor)), c, last, live, actor);
    }
  }

  // ---- a whole reload ------------------------------------------------------

  /** The governance tables when the pass is done, and when the sweep after it is. */
  ghost function AfterPass(env: Compliance.Env, base: Readiness.Env, s: SystemState, start: Tables, ids: seq<nat>)
    : SystemState
    requires forall id :: id in ids ==> id in start.compliance.devices
  {
    Run(s, PassActions(env, base, start, ids))
  }

  /** The waves to invalidate, each once: those that hold a device of the pass. */
  ghost predicate SweepList(db: Database, ids: seq<nat>, waves: seq<WaveId>) {
    Distinct(waves) && Elements(waves) == UpliftStore.AffectedWaves(db, Elements(ids))
  }

  /** A draft or submitted wave holds the device. */
  ghost predicate InOpenWave(db: Database, id: DeviceId) {
    exists w :: w in db.waves && db.waves[w].state in {Draft, Submitted} && IsMember(db.waves[w].members, id)
  }

  lemma ListedWavesAreOpen(db: Database, ids: seq<nat>, waves: seq<WaveId>)
    requires SweepList(db, ids, waves)
    ensures forall w :: w in waves ==> w in db.waves && db.waves[w].state in {Draft, Submitted}
  {
    assert forall w :: w in waves ==> w in Elements(waves);
  }

  /**
   The tail of a reload is a run of the uplift system: the visits, and then the invalidations. So it
   keeps every invariant of the runs, and what it does to the tables is what those steps do.
  */
  lemma ReloadIsARun(env: Compliance.Env, base: Readiness.Env, s: SystemState, start: Tables, ids: seq<nat>,
                     waves: seq<WaveId>, c: Caller, live: set<(string, string)>, actor: Subject)
    returns (actions: seq<Action>)
    requires Inv(s) && c !in s.waveTickets && Compliance.WellKeyed(start.compliance.devices)
    requires Mirrors(start.compliance.devices, s.db.lifecycle)
    requires forall id :: id in ids ==> id in start.compliance.devices
    requires SweepList(s.db, ids, waves)
    ensures var passed := AfterPass(env, base, s, start, ids);
            Run(s, actions) == passed.(db := UpliftStore.InvalidateAll(passed.db, waves, live, actor))
    ensures Inv(Run(s, actions))
  {
    var passed := AfterPass(env, base, s, start, ids);
    PassIsARun(env, base, s, start, ids);
    ListedWavesAreOpen(s.db, ids, waves);
    SweepIsARun(passed, c, waves, live, actor);
    var sweep := SweepActions(passed.db, c, waves, live, actor);
    actions := PassActions(env, base, start, ids) + sweep;
    RunBoth(s, PassActions(env, base, start, ids), sweep);
    UpliftTheorems.RunKeepsInv(s, actions);
  }

  /**
   A device of the pass ends in the lifecycle that its visit gave it, whatever is invalidated, and no
   draft or submitted wave holds it any more.
  */
  lemma VisitedDeviceAfterReload(env: Compliance.Env, base: Readiness.Env, s: SystemState, start: Tables, ids: seq<nat>,
                                 waves: seq<WaveId>, live: set<(string, string)>, actor: Subject, id: nat)
    requires Compliance.WellKeyed(start.compliance.devices) && Mirrors(start.compliance.devices, s.db.lifecycle)
    requires (forall x :: x in ids ==> x in start.compliance.devices) && id in ids
    requires SweepList(s.db, ids, waves)
    ensures var end := UpliftStore.InvalidateAll(AfterPass(env, base, s, start, ids).db, waves, live, actor);
            && id in end.lifecycle
            && NameOf(end.lifecycle[id]) == VisitOne(env, base, ViewOf(start, id)).device.lifecycle
            && !InOpenWave(end, id)
  {
    var passed := AfterPass(env, base, s, start, ids);
    PassIsARun(env, base, s, start, ids);
    EndsAsVisited(env, base, ViewOf(start, id));
    LifecycleAfterSweep(EndsOf(env, base, start), s, passed, ids, waves, live, actor, id);
    NoOpenWaveHolds(passed.db, ids, waves, live, actor, id);
  }

  lemma LifecycleAfterSweep(ends: map<DeviceId, Lifecycle>, s: SystemState, passed: SystemState, ids: seq<nat>,
                            waves: seq<WaveId>, live: set<(string, string)>, actor: Subject, id: nat)
    requires Reached(ends, s, passed, ids) && id in ends && SweepList(s.db, ids, waves)
    requires id in ids ==> !Parked(ends[id])
    ensures var end := UpliftStore.InvalidateAll(passed.db, waves, live, actor);
            && id in end.lifecycle
            && end.lifecycle[id] ==
               if id in ids then ends[id]
               else if s.db.lifecycle[id] == ApprovalPending && UpliftStore.ReleasedBy(s.db, waves, id)
               then Lifecycle.ReadyForUplift
               else s.db.lifecycle[id]
  {
    assert Stands(ends, s.db.lifecycle, passed.db.lifecycle, ids, id);
    ListedWavesAreOpen(s.db, ids, waves);
    UpliftStore.InvalidationReleases(passed.db, waves, live, actor, id);
  }

  lemma NoOpenWaveHolds(db: Database, ids: seq<nat>, waves: seq<WaveId>, live: set<(string, string)>, actor: Subject,
                        id: nat)
    requires SweepList(db, ids, waves) && id in ids
    ensures !InOpenWave(UpliftStore.InvalidateAll(db, waves, live, actor), id)
  {
    var end := UpliftStore.InvalidateAll(db, waves, live, actor);
    assert id in Elements(ids);
    forall w | w in end.waves && end.waves[w].state in {Draft, Submitted} ensures !IsMember(end.waves[w].members, id) {
      UpliftStore.NothingAffectedSurvives(db, Elements(ids), waves, live, actor, w);
    }
  }

  /**
   Any other device keeps its lifecycle, unless it waited for approval in a submitted wave that shared
   a device with the pass: then it is ready again. The device of the pass itself is not put back so.
  */
  lemma OtherDeviceAfterReload(env: Compliance.Env, base: Readiness.Env, s: SystemState, start: Tables, ids: seq<nat>,
                               waves: seq<WaveId>, live: set<(string, string)>, actor: Subject, id: nat)
    requires Compliance.WellKeyed(start.compliance.devices) && Mirrors(start.compliance.devices, s.db.lifecycle)
    requires (forall x :: x in ids ==> x in start.compliance.devices) && id in start.compliance.devices && id !in ids
    requires SweepList(s.db, ids, waves)
    ensures var end := UpliftStore.InvalidateAll(AfterPass(env, base, s, start, ids).db, waves, live, actor);
            && id in end.lifecycle
            && end.lifecycle[id] == if s.db.lifecycle[id] == ApprovalPending && UpliftStore.ReleasedBy(s.db, waves, id)
                                    then Lifecycle.ReadyForUplift else s.db.lifecycle[id]
  {
    PassIsARun(env, base, s, start, ids);
    LifecycleAfterSweep(EndsOf(env, base, start), s, AfterPass(env, base, s, start, ids), ids, waves, live, actor, id);
  }
}
