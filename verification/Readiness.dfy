/**
 The readiness verdict of a device: carve-outs, matching rules, reachability of the target under
 the weight cap, and the history that only grows when the verdict changes.
*/
module Readiness {
  import opened Prelude
  import opened Prerequisites
  import ScopeSelector
  import UpgradePath

  datatype ComplianceState = Compliant | OutsideTarget | UnknownFirmware | Classified | TargetDefined

  datatype ComplianceRow = ComplianceRow(id: nat, state: ComplianceState, targetVersion: Option<string>,
                                         observedVersion: Option<string>, evaluatedAt: int)

  datatype ReasonKind =
    | NoComplianceEvaluation | AlreadyCompliant | NoTargetResolved | NoObservationToVerify | LifecycleUnknown

  datatype Reason =
    | CarvedOut(kind: ReasonKind, complianceState: Option<ComplianceState>)
    | ActiveException(exceptionId: nat)

  datatype State = ReadyForUplift | Blocked | NotApplicable

  datatype Action =
    | ScheduleUpliftWave(target: Option<string>, platform: Option<string>)
    | HardwareRefresh(finding: Finding)
    | LicenseAcquire(finding: Finding)
    | FirmwareIntermediateStep(target: Option<string>, platform: Option<string>, finding: Finding)
    | ImportObservation(finding: Finding)
    | EscalateToCatalogOwner(finding: Finding)

  datatype Row = Row(
    state: State, targetVersion: Option<string>, observedVersion: Option<string>, pathExists: bool,
    rulesCount: nat, blockers: seq<Blocker>, actions: seq<Action>, reasons: seq<Reason>, complianceRef: Option<nat>)

  /** What one evaluation reads: the clock, the settings, the catalog and the rows about the devices. */
  datatype Env = Env(
    now: int, staleDays: nat, weightCap: nat, maxBatch: nat,
    rules: seq<Rule>, edges: seq<UpgradePath.EdgeRow>,
    compliance: map<nat, ComplianceRow>, activeException: map<nat, nat>, observed: map<nat, string>)

  datatype EvaluateError = DeviceNotFound | InputStale | TooManyDevices(requested: nat)

  // ---- the pieces ----------------------------------------------------------

  function FactsOf(d: Device): ScopeSelector.Facts {
    d.facts.(lifecycle := Some(d.lifecycle))
  }

  predicate Applies(r: Rule, d: Device) {
    r.live && r.evaluable && ScopeSelector.Matches(r.appliesTo, FactsOf(d))
  }

  function MatchingRules(rules: seq<Rule>, d: Device): (r: seq<Rule>)
    ensures forall x :: x in r <==> x in rules && Applies(x, d)
  {
    if rules == [] then []
    else
      var most, last := MatchingRules(rules[..|rules| - 1], d), rules[|rules| - 1];
      assert rules == rules[..|rules| - 1] + [last];
      if Applies(last, d) then most + [last] else most
  }

  function ObservedFirmware(env: Env, d: Device): Option<string> {
    if d.id in env.observed then Some(env.observed[d.id]) else None
  }

  /** Whole days, rounded down, as a time difference counts them. */
  predicate Stale(env: Env, c: ComplianceRow) {
    (env.now - c.evaluatedAt) / SECONDS_PER_DAY > env.staleDays
  }

  function CarveOut(s: ComplianceState): ReasonKind {
    match s
    case Compliant => AlreadyCompliant
    case Classified => NoTargetResolved
    case TargetDefined => NoObservationToVerify
    case _ => LifecycleUnknown
  }

  function NotApplicableRow(c: Option<ComplianceRow>, reason: Reason): Row {
    match c
    case None => Row(NotApplicable, None, None, false, 0, [], [], [reason], None)
    case Some(f3) => Row(NotApplicable, f3.targetVersion, f3.observedVersion, false, 0, [], [], [reason], Some(f3.id))
  }

  function PathBlocker(env: Env, d: Device, c: ComplianceRow): Blocker
    requires c.targetVersion.Some?
  {
    Blocker(None, None, MissingUpgradePath, Required,
            NoChain(c.targetVersion.value, d.facts.platform, c.observedVersion, env.weightCap))
  }

  function Synthetic(env: Env, d: Device, c: ComplianceRow, pathExists: bool): seq<Blocker> {
    if !pathExists && c.targetVersion.Some? then [PathBlocker(env, d, c)] else []
  }

  function BuildActions(platform: Option<string>, state: State, blockers: seq<Blocker>,
                        target: Option<string>): seq<Action>
  {
    if state == ReadyForUplift then [ScheduleUpliftWave(target, platform)]
    else if blockers == [] then []
    else
      var primary := blockers[0];
      match primary.kind
      case MinRamMb => [HardwareRefresh(primary.finding)]
      case MinDiskMb => [HardwareRefresh(primary.finding)]
      case HardwareRevisionIn => [HardwareRefresh(primary.finding)]
      case LicensePresent => [LicenseAcquire(primary.finding)]
      case MinCurrentVersion => [FirmwareIntermediateStep(target, platform, primary.finding)]
      case IntermediateVersionRequired => [FirmwareIntermediateStep(target, platform, primary.finding)]
      case MissingUpgradePath => [FirmwareIntermediateStep(target, platform, primary.finding)]
      case MissingObservationField => [ImportObservation(primary.finding)]
      case _ => [EscalateToCatalogOwner(primary.finding)]
  }

  predicate HasRequired(bs: seq<Blocker>) {
    exists i :: 0 <= i < |bs| && bs[i].severity == Required
  }

  /** The blockers of the full verdict, before they are sorted. */
  function AllBlockers(env: Env, d: Device, c: ComplianceRow, pathExists: bool): seq<Blocker> {
    RawBlockers(MatchingRules(env.rules, d), d, ObservedFirmware(env, d)) + Synthetic(env, d, c, pathExists)
  }

  function RowWith(platform: Option<string>, c: ComplianceRow, pathExists: bool, rulesCount: nat,
                   blockers: seq<Blocker>): Row
  {
    var state := if HasRequired(blockers) then Blocked else ReadyForUplift;
    Row(state, c.targetVersion, c.observedVersion, pathExists, rulesCount, blockers,
        BuildActions(platform, state, blockers, c.targetVersion), [], Some(c.id))
  }

  /** The full verdict, once it is known whether a chain fits the cap. */
  function ApplicableRow(env: Env, d: Device, c: ComplianceRow, pathExists: bool): Row {
    RowWith(d.facts.platform, c, pathExists, |MatchingRules(env.rules, d)|,
            SortBlockers(AllBlockers(env, d, c, pathExists)))
  }

  /** Some chain of live edges of the device's platform leads from the observed to the target version within the cap. */
  ghost predicate ChainFits(env: Env, d: Device, c: ComplianceRow) {
    && d.facts.platform.Some? && c.targetVersion.Some? && c.observedVersion.Some?
    && UpgradePath.ReachableWithin(env.edges, d.facts.platform.value, c.observedVersion.value, c.targetVersion.value,
                                   env.weightCap)
  }

  /** The verdict of one evaluation, before it is compared with the history. */
  ghost function Verdict(env: Env, d: Device): Result<Row, EvaluateError> {
    if d.id !in env.compliance then Ok(NotApplicableRow(None, CarvedOut(NoComplianceEvaluation, None)))
    else
      var c := env.compliance[d.id];
      if Stale(env, c) then Err(InputStale)
      else if c.state != OutsideTarget then Ok(NotApplicableRow(Some(c), CarvedOut(CarveOut(c.state), Some(c.state))))
      else if d.id in env.activeException then Ok(NotApplicableRow(Some(c), ActiveException(env.activeException[d.id])))
      else Ok(ApplicableRow(env, d, c, ChainFits(env, d, c)))
  }

  predicate SameBlocker(a: Blocker, b: Blocker) {
    a.ruleId == b.ruleId && a.kind == b.kind && a.severity == b.severity && a.finding == b.finding
  }

  predicate SameBlockerLists(a: seq<Blocker>, b: seq<Blocker>) {
    |a| == |b| && forall i :: 0 <= i < |a| ==> SameBlocker(a[i], b[i])
  }

  /** Does the new verdict say the same as the latest stored row? The comparison differs per branch. */
  predicate SameVerdict(prev: Row, row: Row) {
    if row.state == NotApplicable then
      prev.state == NotApplicable && prev.blockers == [] && prev.reasons == row.reasons
    else
      && prev.state == row.state
      && prev.pathExists == row.pathExists
      && prev.rulesCount == row.rulesCount
      && prev.targetVersion == row.targetVersion
      && prev.observedVersion == row.observedVersion
      && SameBlockerLists(prev.blockers, row.blockers)
      && prev.actions == row.actions
  }

  predicate Unchanged(history: seq<Row>, row: Row) {
    history != [] && SameVerdict(history[|history| - 1], row)
  }

  /**
   The row repeats the latest one: about an uplift all of it does, blocker by blocker but for the names
   of the rules; otherwise the reasons do.
  */
  ghost predicate SaysNothingNew(rows: seq<Row>, row: Row) {
    && rows != []
    && var last := rows[|rows| - 1];
       && last.state == row.state
       && if row.state == NotApplicable then last.blockers == [] && last.reasons == row.reasons
          else
            && last.pathExists == row.pathExists && last.rulesCount == row.rulesCount
            && last.targetVersion == row.targetVersion && last.observedVersion == row.observedVersion
            && last.actions == row.actions && |last.blockers| == |row.blockers|
            && forall i :: 0 <= i < |row.blockers| ==>
                 && last.blockers[i].ruleId == row.blockers[i].ruleId && last.blockers[i].kind == row.blockers[i].kind
                 && last.blockers[i].severity == row.blockers[i].severity
                 && last.blockers[i].finding == row.blockers[i].finding
  }

  lemma UnchangedExactly(rows: seq<Row>, row: Row)
    ensures Unchanged(rows, row) <==> SaysNothingNew(rows, row)
  {
  }

  function LifecycleAfter(lifecycle: string, row: Row): string {
    match row.state
    case ReadyForUplift => "ready_for_uplift"
    case Blocked => "blocked"
    case NotApplicable => lifecycle
  }

  /** The device once its lifecycle follows the verdict. */
  function Led(d: Device, row: Row): Device {
    d.(lifecycle := LifecycleAfter(d.lifecycle, row))
  }

  datatype Stored = Stored(devices: map<nat, Device>, history: map<nat, seq<Row>>, audited: seq<nat>)

  function HistoryOf(s: Stored, d: nat): seq<Row> {
    if d in s.history then s.history[d] else []
  }

  /** A verdict that says something new becomes a row, moves the lifecycle, and is audited. */
  function Recorded(s: Stored, id: nat, row: Row): Stored
    requires id in s.devices
  {
    var d := s.devices[id];
    if Unchanged(HistoryOf(s, id), row) then s
    else Stored(s.devices[id := Led(d, row)],
                s.history[id := HistoryOf(s, id) + [row]],
                s.audited + [id])
  }

  /** One evaluation on the tables; an error leaves them alone. */
  ghost function Evaluated(env: Env, s: Stored, id: nat): Stored {
    if id !in s.devices || Verdict(env, s.devices[id]).Err? then s
    else Recorded(s, id, Verdict(env, s.devices[id]).value)
  }

  /** Rows are stored under the id they carry, and the catalog respects its unique indexes. */
  ghost predicate WellKeyed(s: Stored) {
    forall id :: id in s.devices ==> s.devices[id].id == id
  }

  ghost predicate CatalogOk(env: Env) {
    UpgradePath.LiveEdgesUnique(env.edges) && DistinctIds(env.rules)
  }

  // ---- the controller ------------------------------------------------------

  class ReadinessController {
    var devices: map<nat, Device>
    var history: map<nat, seq<Row>>
    var audited: seq<nat>

    function Tables(): Stored
      reads this
    {
      Stored(devices, history, audited)
    }

    constructor (devices: map<nat, Device>)
      ensures Tables() == Stored(devices, map[], [])
    {
      this.devices, history, audited := devices, map[], [];
    }

    /** Asks the upgrade graph of the platform for the shortest chain and tests it against the cap. */
    method PathExists(env: Env, d: Device, c: ComplianceRow) returns (fits: bool)
      requires UpgradePath.LiveEdgesUnique(env.edges)
      ensures fits == ChainFits(env, d, c)
    {
      fits := false;
      if d.facts.platform.Some? && c.targetVersion.Some? && c.observedVersion.Some? {
        var platform, from, to := d.facts.platform.value, c.observedVersion.value, c.targetVersion.value;
        var cache := new UpgradePath.UpgradePathGraphCache();
        var r := cache.WithEdges(platform, UpgradePath.PlatformEdges(env.edges, platform), from, to);
        UpgradePath.ShortestDecidesReachability(env.edges, platform, from, to, env.weightCap, r);
        fits := UpgradePath.Fits(r, env.weightCap);
      }
    }

    /** Stores the row unless it repeats the latest verdict; returns whether it was stored. */
    method Persist(id: nat, row: Row) returns (changed: bool)
      requires id in devices
      modifies this
      ensures changed == !Unchanged(HistoryOf(old(Tables()), id), row)
      ensures Tables() == if !changed then old(Tables())
                          else Stored(old(devices)[id := Led(old(devices)[id], row)],
                                      old(history)[id := HistoryOf(old(Tables()), id) + [row]],
                                      old(audited) + [id])
    {
      var rows := if id in history then history[id] else [];
      if rows != [] && SameVerdict(rows[|rows| - 1], row) {
        return false;
      }
      history := history[id := rows + [row]];
      if row.state == ReadyForUplift {
        devices := devices[id := devices[id].(lifecycle := "ready_for_uplift")];
      } else if row.state == Blocked {
        devices := devices[id := devices[id].(lifecycle := "blocked")];
      } else {
        devices := devices[id := devices[id]];
      }
      audited := audited + [id];
      changed := true;
    }

    method Evaluate(env: Env, id: nat) returns (r: Result<(Row, bool), EvaluateError>)
      requires CatalogOk(env) && WellKeyed(Tables())
      modifies this
      ensures Tables() == Evaluated(env, old(Tables()), id) && WellKeyed(Tables())
      ensures id !in old(devices) <==> r == Err(DeviceNotFound)
      ensures id in old(devices) ==>
                match Verdict(env, old(devices)[id])
                case Err(e) => r == Err(e)
                case Ok(row) => r == Ok((row, !Unchanged(HistoryOf(old(Tables()), id), row)))
      ensures r.Ok? ==>
                (!r.value.1 <==> SaysNothingNew(if id in old(history) then old(history)[id] else [], r.value.0))
      ensures r.Err? || !r.value.1 ==> Tables() == old(Tables())
      ensures r.Ok? && r.value.1 ==>
                var row, d := r.value.0, old(devices)[id];
                && history == old(history)[id := (if id in old(history) then old(history)[id] else []) + [row]]
                && audited == old(audited) + [id]
                && (row.state == ReadyForUplift ==> devices == old(devices)[id := d.(lifecycle := "ready_for_uplift")])
                && (row.state == Blocked ==> devices == old(devices)[id := d.(lifecycle := "blocked")])
                && (row.state == NotApplicable ==> devices == old(devices))
    {
      if id !in devices {
        return Err(DeviceNotFound);
      }
      var d := devices[id];
      var row: Row;
      if id !in env.compliance {
        row := NotApplicableRow(None, CarvedOut(NoComplianceEvaluation, None));
      } else {
        var c := env.compliance[id];
        if Stale(env, c) {
          return Err(InputStale);
        }
        if c.state != OutsideTarget {
          row := NotApplicableRow(Some(c), CarvedOut(CarveOut(c.state), Some(c.state)));
        } else if id in env.activeException {
          row := NotApplicableRow(Some(c), ActiveException(env.activeException[id]));
        } else {
          var fits := PathExists(env, d, c);
          row := ApplicableRow(env, d, c, fits);
        }
      }
      UnchangedExactly(if id in history then history[id] else [], row);
      var changed := Persist(id, row);
      r := Ok((row, changed));
    }

    /** One more device of a batch that began at `start` and has judged `done`; being stale is not an error here. */
    method EvaluateInBatch(env: Env, ghost start: Stored, ghost done: seq<nat>, id: nat)
      returns (unknown: bool, stale: bool, changed: bool, notApplicable: bool)
      requires CatalogOk(env) && WellKeyed(Tables()) && devices.Keys == start.devices.Keys
      requires Tables() == EvaluatedAll(env, start, done)
      modifies this
      ensures WellKeyed(Tables()) && devices.Keys == start.devices.Keys
      ensures unknown <==> id !in start.devices
      ensures stale <==> id in old(devices) && Verdict(env, old(devices)[id]).Err?
      ensures stale ==> notApplicable && !changed
      ensures Tables() == EvaluatedAll(env, start, if unknown then done else done + [id])
      ensures |audited| == |old(audited)| + if changed then 1 else 0
    {
      EvaluatedSnoc(env, start, done, id);
      var out := Evaluate(env, id);
      match out {
        case Err(e) => return e == DeviceNotFound, e != DeviceNotFound, false, true;
        case Ok((row, news)) => return false, false, news, row.state == NotApplicable;
      }
    }

    /**
     A bounded batch. Stale devices count as not applicable and are neither evaluated nor unchanged;
     an unknown id aborts the batch where it stands.
    */
    method EvaluateMany(env: Env, ids: seq<nat>)
      returns (r: Result<(nat, nat, nat), EvaluateError>, ghost stale: nat)
      requires CatalogOk(env) && WellKeyed(Tables())
      modifies this
      ensures |ids| > env.maxBatch <==> r == Err(TooManyDevices(|ids|))
      ensures |ids| > env.maxBatch ==> Tables() == old(Tables())
      ensures |ids| <= env.maxBatch ==> (r == Err(DeviceNotFound) <==> FirstUnknown(old(devices).Keys, ids) < |ids|)
      ensures r.Err? ==> r.error != InputStale
      ensures r == Err(DeviceNotFound) ==>
                Tables() == EvaluatedAll(env, old(Tables()), ids[..FirstUnknown(old(devices).Keys, ids)])
      ensures r.Ok? ==> Tables() == EvaluatedAll(env, old(Tables()), ids)
      ensures r.Ok? ==> r.value.0 + r.value.1 + stale == |ids|
      ensures r.Ok? ==> r.value.0 == |audited| - |old(audited)| && stale <= r.value.2 <= |ids|
    {
      stale := 0;
      if |ids| > env.maxBatch {
        return Err(TooManyDevices(|ids|)), 0;
      }
      var evaluated, repeats, notApplicable := 0, 0, 0;
      ghost var start, done: seq<nat> := Tables(), [];
      for i := 0 to |ids|
        invariant WellKeyed(Tables()) && devices.Keys == start.devices.Keys
        invariant IsPrefix(done, ids, i) && Tables() == EvaluatedAll(env, start, done)
        invariant i <= FirstUnknown(start.devices.Keys, ids)
        invariant evaluated + repeats + stale == i && stale <= notApplicable <= i
        invariant evaluated == |audited| - |start.audited|
      {
        PrefixGrows(done, ids, i);
        FirstUnknownFrom(start.devices.Keys, ids, i);
        var unknown, tooOld, changed, none := EvaluateInBatch(env, start, done, ids[i]);
        if unknown {
          return Err(DeviceNotFound), stale;
        }
        done := done + [ids[i]];
        stale := stale + if tooOld then 1 else 0;
        notApplicable := notApplicable + if none then 1 else 0;
        evaluated := evaluated + if changed then 1 else 0;
        repeats := repeats + if changed || tooOld then 0 else 1;
      }
      WholePrefix(done, ids);
      r := Ok((evaluated, repeats, notApplicable));
    }
  }

  lemma EvaluatedSnoc(env: Env, s: Stored, done: seq<nat>, id: nat)
    ensures EvaluatedAll(env, s, done + [id]) == Evaluated(env, EvaluatedAll(env, s, done), id)
    ensures id !in EvaluatedAll(env, s, done).devices ==>
              EvaluatedAll(env, s, done + [id]) == EvaluatedAll(env, s, done)
  {
    assert (done + [id])[..|done|] == done;
  }

  ghost function EvaluatedAll(env: Env, s: Stored, ids: seq<nat>): Stored {
    if ids == [] then s else Evaluated(env, EvaluatedAll(env, s, ids[..|ids| - 1]), ids[|ids| - 1])
  }
}
