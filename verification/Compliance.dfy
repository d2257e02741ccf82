/**
 Firmware compliance. The first part resolves the target that governs a device and moves its
 lifecycle; the second part classifies drift and keeps the history of verdicts.
*/
module Compliance {
  import opened Prelude
  import opened Sorting
  import opened CatalogLoader
  import opened CatalogStore
  import opened Prerequisites
  import Readiness
  import ScopeSelector
  import UpgradePath

  const RUNNERS_UP_REPORTED: nat := 3

  type Target = Row<string, TargetBody>
  type State = Readiness.ComplianceState

  // ---- which target governs a device ---------------------------------------

  datatype Candidate = Candidate(target: Target, specificity: nat)

  predicate NewerFirst(a: Target, b: Target) {
    a.loadedAt >= b.loadedAt
  }

  predicate MoreSpecificFirst(a: Candidate, b: Candidate) {
    a.specificity >= b.specificity
  }

  function LiveTargets(rows: seq<Target>): (r: seq<Target>)
    ensures forall t :: t in r <==> t in rows && t.live
  {
    if rows == [] then []
    else
      var most, last := LiveTargets(rows[..|rows| - 1]), rows[|rows| - 1];
      assert rows == rows[..|rows| - 1] + [last];
      if last.live then most + [last] else most
  }

  function ActiveTargets(rows: seq<Target>): seq<Target> {
    Sort(LiveTargets(rows), NewerFirst)
  }

  predicate Governs(t: Target, f: ScopeSelector.Facts) {
    ScopeSelector.Matches(t.body.scope, f)
  }

  function CandidateOf(t: Target): Candidate {
    Candidate(t, ScopeSelector.Specificity(t.body.scope))
  }

  function Candidates(targets: seq<Target>, f: ScopeSelector.Facts): seq<Candidate> {
    if targets == [] then []
    else
      var most, last := Candidates(targets[..|targets| - 1], f), targets[|targets| - 1];
      if Governs(last, f) then most + [CandidateOf(last)] else most
  }

  function Ranked(targets: seq<Target>, f: ScopeSelector.Facts): seq<Candidate> {
    Sort(Candidates(targets, f), MoreSpecificFirst)
  }

  function Winner(rows: seq<Target>, f: ScopeSelector.Facts): Option<Target> {
    var ranked := Ranked(ActiveTargets(rows), f);
    if ranked == [] then None else Some(ranked[0].target)
  }

  predicate AnyDefers(targets: seq<Target>, f: ScopeSelector.Facts) {
    exists i :: 0 <= i < |targets| && ScopeSelector.Defers(targets[i].body.scope, f)
  }

  /** The loader refuses a target whose scope has an unknown key. */
  ghost predicate KnownScopes(targets: seq<Target>) {
    forall t :: t in targets ==> ScopeSelector.KnownKeys(t.body.scope)
  }

  lemma AnyDefersSnoc(most: seq<Target>, t: Target, f: ScopeSelector.Facts)
    ensures AnyDefers(most + [t], f) <==> AnyDefers(most, f) || ScopeSelector.Defers(t.body.scope, f)
  {
    var all := most + [t];
    assert all[|most|] == t && forall k :: 0 <= k < |most| ==> all[k] == most[k];
  }

  method ResolveTarget(targets: seq<Target>, f: ScopeSelector.Facts)
    returns (winner: Option<Candidate>, runnersUp: seq<Candidate>, deferred: bool)
    requires KnownScopes(targets)
    ensures winner.None? <==> Ranked(targets, f) == []
    ensures winner.None? ==> runnersUp == []
    ensures winner.Some? ==> [winner.value] + runnersUp == Ranked(targets, f)
    ensures deferred <==> AnyDefers(targets, f)
  {
    var matched := [];
    deferred := false;
    for i := 0 to |targets|
      invariant matched == Candidates(targets[..i], f)
      invariant deferred <==> AnyDefers(targets[..i], f)
    {
      var t := targets[i];
      assert targets[..i + 1][..i] == targets[..i];
      assert t in targets;
      var verdict := ScopeSelector.Evaluate(t.body.scope, f);
      AnyDefersSnoc(targets[..i], t, f);
      assert targets[..i + 1] == targets[..i] + [t];
      deferred := deferred || verdict.value.deferred;
      if verdict.value.matched {
        matched := matched + [Candidate(t, ScopeSelector.Specificity(t.body.scope))];
      }
    }
    assert targets[..|targets|] == targets;
    if matched == [] {
      return None, [], deferred;
    }
    var ranked := Sort(matched, MoreSpecificFirst);
    return Some(ranked[0]), ranked[1..], deferred;
  }

  // ---- the compliance assessment -------------------------------------------

  datatype ReasonKind =
    | EmptyCatalog | NoTargetMatched | PredicateDeferred | TargetMatched | TargetRunnerUp | MissingObservation
    | VersionMatch | VersionMismatch | PackageNotBuilt | MissingUpgradePath | StaleObservation

  datatype RefType = FirmwarePackage | DeviceObservation

  /** What the detail text of a reason says. */
  datatype Detail =
    | NoLiveTargets
    | NoneMatched(liveTargets: nat)
    | TagsDeferred
    | MatchedWith(name: string, specificity: nat, loadedAt: int)
    | AlsoMatched(name: string, specificity: nat)
    | NoFirmwareOnFile
    | NoObservationOnFile
    | SameVersion(version: string)
    | OtherVersion(observed: string, version: string)
    | NoPackageRow(version: string)
    | NoBlob(version: string)
    | NoEdgeReaches(version: string)
    | ObservationAge(days: int, threshold: nat)
    | NeverReevaluated
    | EvidenceAge(days: int, threshold: nat)

  datatype Reason = Reason(kind: ReasonKind, refId: Option<nat>, refType: Option<RefType>, detail: Detail)

  datatype Assessment = Assessment(state: State, target: Option<Target>, observed: Option<string>, reasons: seq<Reason>)

  function Plain(kind: ReasonKind, detail: Detail): Reason {
    Reason(kind, None, None, detail)
  }

  function RunnersUpReasons(cs: seq<Candidate>): (r: seq<Reason>)
    ensures |r| == |cs|
    ensures forall i :: 0 <= i < |r| ==> r[i].kind == TargetRunnerUp
  {
    seq(|cs|, i requires 0 <= i < |cs| =>
      Reason(TargetRunnerUp, Some(cs[i].target.id), None, AlsoMatched(cs[i].target.key, cs[i].specificity)))
  }

  function VersionReason(t: Target, observed: Option<string>): Reason {
    match observed
    case None => Plain(MissingObservation, NoFirmwareOnFile)
    case Some(v) =>
      if v == t.body.targetVersion then Plain(VersionMatch, SameVersion(v))
      else Plain(VersionMismatch, OtherVersion(v, t.body.targetVersion))
  }

  function StateFor(t: Target, observed: Option<string>): State {
    match observed
    case None => Readiness.UnknownFirmware
    case Some(v) => if v == t.body.targetVersion then Readiness.Compliant else Readiness.OutsideTarget
  }

  function Matched(w: Candidate, others: seq<Candidate>, observed: Option<string>): Assessment {
    Assessment(StateFor(w.target, observed), Some(w.target), observed,
               [Reason(TargetMatched, Some(w.target.id), None,
                       MatchedWith(w.target.key, w.specificity, w.target.loadedAt))] +
               RunnersUpReasons(if |others| <= RUNNERS_UP_REPORTED then others else others[..RUNNERS_UP_REPORTED]) +
               [VersionReason(w.target, observed)])
  }

  function Judge(targets: seq<Target>, ranked: seq<Candidate>, deferred: bool, observed: Option<string>): Assessment {
    if targets == [] then
      Assessment(Readiness.Classified, None, observed, [Plain(EmptyCatalog, NoLiveTargets)])
    else if ranked == [] then
      Assessment(Readiness.Classified, None, observed,
                 [Plain(NoTargetMatched, NoneMatched(|targets|))] +
                 (if deferred then [Plain(PredicateDeferred, TagsDeferred)] else []))
    else Matched(ranked[0], ranked[1..], observed)
  }

  function Assess(rows: seq<Target>, d: Device, observed: Option<string>): Assessment {
    var targets, facts := ActiveTargets(rows), Readiness.FactsOf(d);
    Judge(targets, Ranked(targets, facts), AnyDefers(targets, facts), observed)
  }

  method AssessFrom(rows: seq<Target>, d: Device, observed: Option<string>) returns (a: Assessment)
    requires KnownScopes(rows)
    ensures a == Assess(rows, d, observed)
  {
    var targets, facts := ActiveTargets(rows), Readiness.FactsOf(d);
    if targets == [] {
      return Assessment(Readiness.Classified, None, observed, [Plain(EmptyCatalog, NoLiveTargets)]);
    }
    SortPermutes(LiveTargets(rows), NewerFirst);
    var winner, runnersUp, deferred := ResolveTarget(targets, facts);
    ghost var ranked := Ranked(targets, facts);
    assert Assess(rows, d, observed) == Judge(targets, ranked, deferred, observed);
    if winner.None? {
      a := Assessment(Readiness.Classified, None, observed, [Plain(NoTargetMatched, NoneMatched(|targets|))]);
      if deferred {
        a := a.(reasons := a.reasons + [Plain(PredicateDeferred, TagsDeferred)]);
      }
    } else {
      assert ranked[0] == winner.value && ranked[1..] == runnersUp;
      a := Matched(winner.value, runnersUp, observed);
    }
  }

  function StateName(s: State): string {
    match s
    case Compliant => "compliant"
    case OutsideTarget => "outside_target"
    case UnknownFirmware => "unknown"
    case Classified => "classified"
    case TargetDefined => "target_defined"
  }

  // ---- drift ---------------------------------------------------------------

  datatype Drift =
    | CatalogDrift | RuleDrift | PackageDrift | TargetDrift | DiscoveryDrift | EvidenceDrift | ExceptionDrift

  function Precedence(d: Drift): nat {
    match d
    case CatalogDrift => 0
    case RuleDrift => 1
    case PackageDrift => 2
    case TargetDrift => 3
    case DiscoveryDrift => 4
    case EvidenceDrift => 5
    case ExceptionDrift => 6
  }

  predicate UpstreamFirst(a: Drift, b: Drift) {
    Precedence(a) <= Precedence(b)
  }

  predicate Soft(d: Drift) {
    d.EvidenceDrift? || d.DiscoveryDrift?
  }

  datatype Package = Package(id: nat, blobPresent: bool)
  datatype Observation = Observation(id: nat, observedAt: int)
  datatype Action = Action(kind: nat, payload: string)

  predicate ByKind(a: Action, b: Action) {
    a.kind <= b.kind
  }

  /** What an evaluation reads besides the device: clock, settings, catalog, and rows about the devices. */
  datatype Env = Env(
    now: int, discoveryStaleDays: nat, evidenceStaleDays: nat, maxBatch: nat,
    targets: seq<Target>, packages: map<PackageKey, Package>, edges: seq<UpgradePath.EdgeRow>,
    observed: map<nat, string>, latest: map<nat, Observation>, reevaluated: map<nat, int>,
    actionsFor: (nat, Option<string>, Assessment, seq<Drift>) -> seq<Action>)

  function Lookup<V>(m: map<nat, V>, id: nat): Option<V> {
    if id in m then Some(m[id]) else None
  }

  predicate OlderThan(now: int, at: int, days: nat) {
    now - at > days * SECONDS_PER_DAY
  }

  function CatalogDriftReason(a: Assessment): Option<Reason> {
    if a.state != Readiness.Classified then None else FirstUnmatched(a.reasons)
  }

  function FirstUnmatched(reasons: seq<Reason>): Option<Reason> {
    if reasons == [] then None
    else if reasons[0].kind == NoTargetMatched || reasons[0].kind == EmptyCatalog then
      Some(Plain(reasons[0].kind, reasons[0].detail))
    else FirstUnmatched(reasons[1..])
  }

  predicate SomeEdgeReaches(edges: seq<UpgradePath.EdgeRow>, platform: Option<string>, version: string) {
    platform.Some? && exists e :: e in edges && UpgradePath.LiveOn(e, platform.value) && e.toVersion == version
  }

  function RuleDriftReason(env: Env, d: Device, a: Assessment): Option<Reason> {
    if a.state != Readiness.OutsideTarget || a.observed.None? || a.target.None? then None
    else
      var version := a.target.value.body.targetVersion;
      if SomeEdgeReaches(env.edges, d.facts.platform, version) then None
      else Some(Plain(ReasonKind.MissingUpgradePath, NoEdgeReaches(version)))
  }

  function FindPackage(env: Env, d: Device, version: string): Option<Package> {
    if d.facts.vendor.None? || d.facts.platform.None? then None
    else
      var key := (d.facts.vendor.value, d.facts.platform.value, version);
      if key in env.packages then Some(env.packages[key]) else None
  }

  function PackageDriftReason(env: Env, d: Device, a: Assessment): Option<Reason> {
    if a.state != Readiness.OutsideTarget || a.target.None? then None
    else
      var version := a.target.value.body.targetVersion;
      match FindPackage(env, d, version)
      case None => Some(Plain(PackageNotBuilt, NoPackageRow(version)))
      case Some(p) =>
        if p.blobPresent then None
        else Some(Reason(PackageNotBuilt, Some(p.id), Some(FirmwarePackage), NoBlob(version)))
  }

  function TargetDriftReason(a: Assessment): Option<Reason> {
    if a.state != Readiness.OutsideTarget || a.observed.None? || a.target.None? then None
    else Some(Plain(VersionMismatch, OtherVersion(a.observed.value, a.target.value.body.targetVersion)))
  }

  function DiscoveryDriftReason(env: Env, d: Device, a: Assessment): Option<Reason> {
    match Lookup(env.latest, d.id)
    case None => Some(Plain(MissingObservation, NoObservationOnFile))
    case Some(o) =>
      if a.observed.None? then Some(Plain(MissingObservation, NoFirmwareOnFile))
      else if OlderThan(env.now, o.observedAt, env.discoveryStaleDays) then
        Some(Reason(StaleObservation, Some(o.id), Some(DeviceObservation),
                    ObservationAge((env.now - o.observedAt) / SECONDS_PER_DAY, env.discoveryStaleDays)))
      else None
  }

  function EvidenceDriftReason(env: Env, d: Device, a: Assessment): Option<Reason> {
    if a.state != Readiness.Compliant then None
    else
      match Lookup(env.reevaluated, d.id)
      case None => Some(Plain(StaleObservation, NeverReevaluated))
      case Some(at) =>
        if OlderThan(env.now, at, env.evidenceStaleDays) then
          Some(Plain(StaleObservation, EvidenceAge((env.now - at) / SECONDS_PER_DAY, env.evidenceStaleDays)))
        else None
  }

  datatype Finding = Finding(drift: Drift, reason: Reason)

  function Fired(drift: Drift, reason: Option<Reason>): seq<Finding> {
    if reason.Some? then [Finding(drift, reason.value)] else []
  }

  /** The rules in the order in which they fire; the exception rule never does. */
  function Findings(env: Env, d: Device, a: Assessment): seq<Finding> {
    Fired(CatalogDrift, CatalogDriftReason(a)) + Fired(RuleDrift, RuleDriftReason(env, d, a)) +
    Fired(PackageDrift, PackageDriftReason(env, d, a)) + Fired(TargetDrift, TargetDriftReason(a)) +
    Fired(DiscoveryDrift, DiscoveryDriftReason(env, d, a)) + Fired(EvidenceDrift, EvidenceDriftReason(env, d, a))
  }

  function DriftsOf(fs: seq<Finding>): (r: seq<Drift>)
    ensures |r| == |fs|
    ensures forall i :: 0 <= i < |r| ==> r[i] == fs[i].drift
  {
    seq(|fs|, i requires 0 <= i < |fs| => fs[i].drift)
  }

  function ReasonsOf(fs: seq<Finding>): (r: seq<Reason>)
    ensures |r| == |fs|
    ensures forall i :: 0 <= i < |r| ==> r[i] == fs[i].reason
  {
    seq(|fs|, i requires 0 <= i < |fs| => fs[i].reason)
  }

  function Without(ds: seq<Drift>, x: Drift): seq<Drift> {
    if ds == [] then []
    else
      var most, last := Without(ds[..|ds| - 1], x), ds[|ds| - 1];
      if last == x then most else most + [last]
  }

  function OnlySoft(ds: seq<Drift>): seq<Drift> {
    if ds == [] then []
    else
      var most, last := OnlySoft(ds[..|ds| - 1]), ds[|ds| - 1];
      if Soft(last) then most + [last] else most
  }

  // ---- reasons are told once -----------------------------------------------

  type Signature = (ReasonKind, Option<nat>, Detail)

  function SignatureOf(r: Reason): Signature {
    (r.kind, r.refId, r.detail)
  }

  predicate Told(reasons: seq<Reason>, s: Signature) {
    exists i :: 0 <= i < |reasons| && SignatureOf(reasons[i]) == s
  }

  function Merge(told: seq<Reason>, more: seq<Reason>): seq<Reason> {
    if more == [] then told
    else
      var before, last := Merge(told, more[..|more| - 1]), more[|more| - 1];
      if Told(before, SignatureOf(last)) then before else before + [last]
  }

  method CollectReasons(all: seq<Reason>) returns (told: seq<Reason>)
    ensures told == Merge([], all)
  {
    told := [];
    var seen: set<Signature> := {};
    for i := 0 to |all|
      invariant told == Merge([], all[..i])
      invariant forall s :: s in seen <==> Told(told, s)
    {
      assert all[..i + 1][..i] == all[..i];
      var sig := SignatureOf(all[i]);
      if sig !in seen {
        ghost var before := told;
        seen := seen + {sig};
        told := told + [all[i]];
        TellOneMore(before, all[i]);
      }
    }
    assert all[..|all|] == all;
  }

  lemma TellOneMore(told: seq<Reason>, r: Reason)
    ensures forall s :: Told(told + [r], s) <==> Told(told, s) || s == SignatureOf(r)
  {
    forall s | Told(told, s) ensures Told(told + [r], s) {
      var i :| 0 <= i < |told| && SignatureOf(told[i]) == s;
      assert (told + [r])[i] == told[i];
    }
    assert (told + [r])[|told|] == r;
  }

  // ---- the verdict row -----------------------------------------------------

  datatype VerdictRow = VerdictRow(
    state: State, primary: Option<Drift>, secondary: seq<Drift>, targetRef: Option<nat>, targetVersion: Option<string>,
    observedVersion: Option<string>, reasons: seq<Reason>, actions: seq<Action>)

  function DriftSet(env: Env, d: Device, a: Assessment): seq<Drift> {
    Sort(DriftsOf(Findings(env, d, a)), UpstreamFirst)
  }

  function PrimaryOf(ds: seq<Drift>): Option<Drift> {
    if ds == [] then None
    else
      var best, last := PrimaryOf(ds[..|ds| - 1]), ds[|ds| - 1];
      if best.None? || Precedence(last) < Precedence(best.value) then Some(last) else best
  }

  function SecondaryOf(ds: seq<Drift>): seq<Drift> {
    match PrimaryOf(ds)
    case None => ds
    case Some(p) => Without(ds, p)
  }

  /** On a compliant device anything but a soft drift is dropped. */
  function KeptPrimary(compliant: bool, ds: seq<Drift>): Option<Drift> {
    var primary := PrimaryOf(ds);
    if compliant && primary.Some? && !Soft(primary.value) then None else primary
  }

  function KeptSecondary(compliant: bool, ds: seq<Drift>): seq<Drift> {
    if compliant then OnlySoft(SecondaryOf(ds)) else SecondaryOf(ds)
  }

  function Classify(env: Env, d: Device, a: Assessment): VerdictRow {
    var ds := DriftSet(env, d, a);
    var compliant := a.state == Readiness.Compliant;
    VerdictRow(a.state, KeptPrimary(compliant, ds), KeptSecondary(compliant, ds),
               if a.target.Some? then Some(a.target.value.id) else None,
               if a.target.Some? then Some(a.target.value.body.targetVersion) else None,
               a.observed,
               Merge([], a.reasons + ReasonsOf(Findings(env, d, a))),
               env.actionsFor(d.id, d.facts.platform, a, ds))
  }

  predicate SameReasons(a: seq<Reason>, b: seq<Reason>) {
    |a| == |b| && forall i :: 0 <= i < |a| ==> SignatureOf(a[i]) == SignatureOf(b[i])
  }

  predicate SameVerdict(prev: VerdictRow, row: VerdictRow) {
    && prev.state == row.state && prev.primary == row.primary && prev.secondary == row.secondary
    && prev.targetRef == row.targetRef && prev.targetVersion == row.targetVersion
    && prev.observedVersion == row.observedVersion
    && SameReasons(prev.reasons, row.reasons)
    && Sort(prev.actions, ByKind) == Sort(row.actions, ByKind)
  }

  predicate Repeats(history: seq<VerdictRow>, row: VerdictRow) {
    history != [] && SameVerdict(history[|history| - 1], row)
  }

  // ---- the tables ----------------------------------------------------------

  datatype Transition = Transition(device: nat, before: string, after: string, target: Option<nat>)

  datatype Stored = Stored(devices: map<nat, Device>, transitions: seq<Transition>,
                           history: map<nat, seq<VerdictRow>>, audited: seq<nat>)

  datatype EvaluateError = DeviceNotFound | TooManyDevices(requested: nat)

  function AssessIn(env: Env, d: Device): Assessment {
    Assess(env.targets, d, Lookup(env.observed, d.id))
  }

  /** The first part: the lifecycle follows the assessment, with an audit row only on a change. */
  function Moved(env: Env, s: Stored, id: nat): Stored {
    if id !in s.devices then s
    else
      var d := s.devices[id];
      var a := AssessIn(env, d);
      if StateName(a.state) == d.lifecycle then s
      else s.(devices := s.devices[id := d.(lifecycle := StateName(a.state))],
              transitions := s.transitions + [Transition(id, d.lifecycle, StateName(a.state),
                                                         if a.target.Some? then Some(a.target.value.id) else None)])
  }

  function HistoryOf(s: Stored, id: nat): seq<VerdictRow> {
    if id in s.history then s.history[id] else []
  }

  /** The second part: a row and an audit entry, unless the verdict repeats the latest row. */
  function Recorded(s: Stored, id: nat, row: VerdictRow): Stored {
    if Repeats(HistoryOf(s, id), row) then s
    else s.(history := s.history[id := HistoryOf(s, id) + [row]], audited := s.audited + [id])
  }

  /** Both parts: the verdict is about the device as it was read before the lifecycle moved. */
  function Evaluated(env: Env, s: Stored, id: nat): Stored {
    if id !in s.devices then s
    else
      Recorded(Moved(env, s, id), id, Classify(env, s.devices[id], AssessIn(env, s.devices[id])))
  }

  function EvaluatedAll(env: Env, s: Stored, ids: seq<nat>): Stored {
    if ids == [] then s else Evaluated(env, EvaluatedAll(env, s, ids[..|ids| - 1]), ids[|ids| - 1])
  }

  ghost predicate WellKeyed(devices: map<nat, Device>) {
    forall id :: id in devices ==> devices[id].id == id
  }

  /** The lifecycle of the device shows the assessed state; a change of it, and nothing else, is audited. */
  ghost predicate Followed(d: Device, a: Assessment, before: Stored, after: Stored) {
    var name := match a.state
                case Compliant => "compliant"
                case OutsideTarget => "outside_target"
                case UnknownFirmware => "unknown"
                case Classified => "classified"
                case TargetDefined => "target_defined";
    if d.lifecycle == name then after == before
    else
      after == before.(
        devices := before.devices[d.id := d.(lifecycle := name)],
        transitions := before.transitions + [Transition(d.id, d.lifecycle, name,
                                                        if a.target.Some? then Some(a.target.value.id) else None)])
  }

  /** The row says nothing that the latest one did not say; the order of actions does not count. */
  ghost predicate SaysNothingNew(history: seq<VerdictRow>, row: VerdictRow) {
    && history != []
    && var last := history[|history| - 1];
       && last.state == row.state && last.primary == row.primary && last.secondary == row.secondary
       && last.targetRef == row.targetRef && last.targetVersion == row.targetVersion
       && last.observedVersion == row.observedVersion
       && |last.reasons| == |row.reasons|
       && (forall i :: 0 <= i < |row.reasons| ==>
             last.reasons[i].kind == row.reasons[i].kind && last.reasons[i].refId == row.reasons[i].refId &&
             last.reasons[i].detail == row.reasons[i].detail)
       && Sort(last.actions, ByKind) == Sort(row.actions, ByKind)
  }

  /** One evaluation: the lifecycle follows the assessment, and a verdict that is new is stored and audited. */
  ghost predicate JudgedOnce(env: Env, id: nat, before: Stored, after: Stored, news: bool) {
    && id in before.devices
    && var d := before.devices[id];
       var a := AssessIn(env, d);
       var row, rows := Classify(env, d, a), if id in before.history then before.history[id] else [];
       && Followed(d, a, before, after.(history := before.history, audited := before.audited))
       && (news <==> !SaysNothingNew(rows, row))
       && after.history == (if news then before.history[id := rows + [row]] else before.history)
       && after.audited == (if news then before.audited + [id] else before.audited)
  }

  lemma EvaluationInTables(env: Env, s: Stored, id: nat)
    requires id in s.devices && s.devices[id].id == id
    ensures var after := Evaluated(env, s, id); JudgedOnce(env, id, s, after, after.audited != s.audited)
  {
    var d := s.devices[id];
    var row := Classify(env, d, AssessIn(env, d));
    var m := Moved(env, s, id);
    assert Followed(d, AssessIn(env, d), s, m);
    RecordingInTables(m, s, id, row);
  }

  lemma RecordingInTables(m: Stored, s: Stored, id: nat, row: VerdictRow)
    requires m.history == s.history && m.audited == s.audited
    ensures var after, rows := Recorded(m, id, row), if id in s.history then s.history[id] else [];
            var news := after.audited != s.audited;
            && after.(history := s.history, audited := s.audited) == m
            && (news <==> !SaysNothingNew(rows, row))
            && after.history == (if news then s.history[id := rows + [row]] else s.history)
            && after.audited == (if news then s.audited + [id] else s.audited)
  {
    assert |s.audited + [id]| == |s.audited| + 1;
  }

  class ComplianceController {
    var devices: map<nat, Device>
    var transitions: seq<Transition>
    var history: map<nat, seq<VerdictRow>>
    var audited: seq<nat>

    function Tables(): Stored
      reads this
    {
      Stored(devices, transitions, history, audited)
    }

    constructor (devices: map<nat, Device>)
      ensures Tables() == Stored(devices, [], map[], [])
    {
      this.devices, transitions, history, audited := devices, [], map[], [];
    }

    /** Resolves the target, compares versions, and moves the lifecycle if the state changed. */
    method AssessDevice(env: Env, id: nat) returns (r: Result<Assessment, EvaluateError>)
      requires KnownScopes(env.targets) && WellKeyed(devices)
      modifies this`devices, this`transitions
      ensures r == if id in old(devices) then Ok(AssessIn(env, old(devices)[id])) else Err(DeviceNotFound)
      ensures Tables() == Moved(env, old(Tables()), id)
      ensures r.Err? ==> Tables() == old(Tables())
      ensures r.Ok? ==> Followed(old(devices)[id], r.value, old(Tables()), Tables())
    {
      r := AssessAndTransition(env, id);
    }

    method AssessAndTransition(env: Env, id: nat) returns (r: Result<Assessment, EvaluateError>)
      requires KnownScopes(env.targets) && WellKeyed(devices)
      modifies this`devices, this`transitions
      ensures r == if id in old(devices) then Ok(AssessIn(env, old(devices)[id])) else Err(DeviceNotFound)
      ensures Tables() == Moved(env, old(Tables()), id)
    {
      if id !in devices {
        return Err(DeviceNotFound);
      }
      var d := devices[id];
      var a := AssessFrom(env.targets, d, Lookup(env.observed, id));
      if StateName(a.state) != d.lifecycle {
        devices := devices[id := d.(lifecycle := StateName(a.state))];
        transitions := transitions + [Transition(id, d.lifecycle, StateName(a.state),
                                                 if a.target.Some? then Some(a.target.value.id) else None)];
      }
      r := Ok(a);
    }

    /** One evaluation; a row and an audit entry only when the verdict says something new. */
    method Evaluate(env: Env, id: nat) returns (r: Result<bool, EvaluateError>)
      requires KnownScopes(env.targets) && WellKeyed(devices)
      modifies this
      ensures Tables() == Evaluated(env, old(Tables()), id)
      ensures WellKeyed(devices) && devices.Keys == old(devices).Keys
      ensures r.Err? <==> id !in old(devices)
      ensures r.Ok? ==> (r.value <==> |audited| == |old(audited)| + 1) && (!r.value <==> audited == old(audited))
      ensures r.Ok? ==> JudgedOnce(env, id, old(Tables()), Tables(), r.value)
    {
      if id in devices {
        EvaluationInTables(env, Tables(), id);
      }
      r := EvaluateDevice(env, id);
    }

    method EvaluateDevice(env: Env, id: nat) returns (r: Result<bool, EvaluateError>)
      requires KnownScopes(env.targets) && WellKeyed(devices)
      modifies this
      ensures Tables() == Evaluated(env, old(Tables()), id)
      ensures WellKeyed(devices) && devices.Keys == old(devices).Keys
      ensures r.Err? <==> id !in old(devices)
      ensures r.Ok? ==> (r.value <==> |audited| == |old(audited)| + 1) && (!r.value <==> audited == old(audited))
    {
      var known := devices;
      var out := AssessAndTransition(env, id);
      if out.Err? {
        return Err(out.error);
      }
      var row := RowFor(env, known[id], out.value);
      var changed := Record(id, row);
      r := Ok(changed);
    }

    /** The row of the verdict, its reasons collected one by one. */
    method RowFor(env: Env, d: Device, a: Assessment) returns (row: VerdictRow)
      ensures row == Classify(env, d, a)
    {
      var reasons := CollectReasons(a.reasons + ReasonsOf(Findings(env, d, a)));
      row := Classify(env, d, a).(reasons := reasons);
    }

    method Record(id: nat, row: VerdictRow) returns (changed: bool)
      modifies this`history, this`audited
      ensures Tables() == Recorded(old(Tables()), id, row)
      ensures if changed then audited == old(audited) + [id] else audited == old(audited)
    {
      var previous := if id in history then history[id] else [];
      changed := !Repeats(previous, row);
      if changed {
        history := history[id := previous + [row]];
        audited := audited + [id];
      }
    }

    /** One more device of a batch that began at `start` and has judged `done`. */
    method EvaluateNext(env: Env, ghost start: Stored, ghost done: seq<nat>, id: nat)
      returns (r: Result<bool, EvaluateError>)
      requires KnownScopes(env.targets) && WellKeyed(devices) && devices.Keys == start.devices.Keys
      requires Tables() == EvaluatedAll(env, start, done)
      modifies this
      ensures WellKeyed(devices) && devices.Keys == start.devices.Keys
      ensures r.Err? <==> id !in start.devices
      ensures Tables() == EvaluatedAll(env, start, if r.Ok? then done + [id] else done)
      ensures |audited| == |old(audited)| + if r == Ok(true) then 1 else 0
    {
      EvaluatedSnoc(env, start, done, id);
      r := Evaluate(env, id);
    }

    /** A bounded batch: every device counts as newly judged or as repeated; an unknown id aborts it where it stands. */
    method EvaluateMany(env: Env, ids: seq<nat>) returns (r: Result<(nat, nat), EvaluateError>)
      requires KnownScopes(env.targets) && WellKeyed(devices)
      modifies this
      ensures |ids| > env.maxBatch <==> r == Err(TooManyDevices(|ids|))
      ensures |ids| > env.maxBatch ==> Tables() == old(Tables())
      ensures |ids| <= env.maxBatch ==> (r == Err(DeviceNotFound) <==> FirstUnknown(old(devices).Keys, ids) < |ids|)
      ensures r == Err(DeviceNotFound) ==>
                Tables() == EvaluatedAll(env, old(Tables()), ids[..FirstUnknown(old(devices).Keys, ids)])
      ensures r.Ok? ==> Tables() == EvaluatedAll(env, old(Tables()), ids)
      ensures r.Ok? ==> r.value.0 + r.value.1 == |ids| && r.value.0 == |audited| - |old(audited)|
    {
      if |ids| > env.maxBatch {
        return Err(TooManyDevices(|ids|));
      }
      var judged, repeated := 0, 0;
      ghost var start, done: seq<nat> := Tables(), [];
      for i := 0 to |ids|
        invariant WellKeyed(devices) && devices.Keys == start.devices.Keys
        invariant IsPrefix(done, ids, i) && Tables() == EvaluatedAll(env, start, done)
        invariant i <= FirstUnknown(start.devices.Keys, ids)
        invariant judged + repeated == i && judged == |audited| - |start.audited|
      {
        PrefixGrows(done, ids, i);
        FirstUnknownFrom(start.devices.Keys, ids, i);
        var out := EvaluateNext(env, start, done, ids[i]);
        if out.Err? {
          return Err(DeviceNotFound);
        }
        done := done + [ids[i]];
        if out.value {
          judged := judged + 1;
        } else {
          repeated := repeated + 1;
        }
      }
      WholePrefix(done, ids);
      r := Ok((judged, repeated));
    }
  }

  lemma EvaluatedSnoc(env: Env, s: Stored, done: seq<nat>, id: nat)
    ensures EvaluatedAll(env, s, done + [id]) == Evaluated(env, EvaluatedAll(env, s, done), id)
    ensures id !in EvaluatedAll(env, s, done).devices ==>
              EvaluatedAll(env, s, done + [id]) == EvaluatedAll(env, s, done)
  {
    assert (done + [id])[..|done|] == done;
  }
}
