/**
 Drafting a wave: scope resolution against the latest readiness verdicts, the read-only preview,
 and the idempotency key that makes a repeated request return the wave it already created.
*/
module WaveDraft {
  import opened Prelude
  import opened Sorting
  import opened UpliftStateMachine
  import opened UpliftGovernance
  import ScopeSelector

  datatype DeviceRow = DeviceRow(id: DeviceId, hostname: string, facts: ScopeSelector.Facts)

  datatype ReadinessRow =
    ReadinessRow(id: nat, state: ReadinessState, targetVersion: Option<string>, observedVersion: Option<string>)

  datatype Limits = Limits(idempotencyTtl: nat, minWindow: nat, maxWindow: nat, maxDevices: nat)

  /** Everything a draft reads besides the waves: the clock, the devices, their verdicts, the catalog. */
  datatype World = World(
    now: Time, limits: Limits, devices: seq<DeviceRow>,
    latest: map<DeviceId, ReadinessRow>, liveTargets: set<(string, string)>)

  datatype DraftRequest = DraftRequest(
    plan: nat, targetVersion: string, platformFamily: string, selector: ScopeSelector.Selector, strict: bool,
    windowStart: Time, windowEnd: Time, idempotencyKey: Option<string>, actor: Subject)

  datatype Skipped = Skipped(device: DeviceId, currentState: Option<ReadinessState>)

  datatype DraftError =
    | InvalidChangeWindow | TargetVersionNotLive | UnknownSelectorKey
    | IneligibleDevicesInScope(skipped: seq<Skipped>) | EmptyWave | WaveTooLarge(count: nat, cap: nat)

  datatype Warning = WindowWarning | TargetWarning | IneligibleWarning(count: nat) | EmptyWarning

  datatype PreviewRow = PreviewRow(device: DeviceId, hostname: string, state: ReadinessState,
                                   targetVersion: Option<string>, observedVersion: Option<string>)

  datatype Preview = Preview(proposed: nat, skipped: seq<Skipped>, rows: seq<PreviewRow>,
                             windowValid: bool, targetLive: bool, warnings: seq<Warning>)

  datatype Outcome = Outcome(wave: WaveId, row: Wave, skipped: seq<Skipped>, replayed: bool)

  // ---- the shared checks ---------------------------------------------------

  predicate WindowValid(w: World, start: Time, end: Time) {
    && w.now < start < end
    && w.limits.minWindow <= end - start <= w.limits.maxWindow
  }

  /** Facts as this controller builds them: tags are never passed to the selector. */
  function WaveFacts(d: DeviceRow): ScopeSelector.Facts {
    d.facts.(tags := None)
  }

  predicate InScope(req: DraftRequest, d: DeviceRow) {
    ScopeSelector.Matches(req.selector, WaveFacts(d))
  }

  predicate Ready(w: World, d: DeviceId) {
    d in w.latest && w.latest[d].state == ReadyState
  }

  function CurrentState(w: World, d: DeviceId): Option<ReadinessState> {
    if d in w.latest then Some(w.latest[d].state) else None
  }

  ghost function Eligible(w: World, req: DraftRequest, devices: seq<DeviceRow>): seq<DeviceRow> {
    if devices == [] then []
    else
      var most, d := Eligible(w, req, devices[..|devices| - 1]), devices[|devices| - 1];
      if InScope(req, d) && Ready(w, d.id) then most + [d] else most
  }

  ghost function SkippedOf(w: World, req: DraftRequest, devices: seq<DeviceRow>): seq<Skipped> {
    if devices == [] then []
    else
      var most, d := SkippedOf(w, req, devices[..|devices| - 1]), devices[|devices| - 1];
      if InScope(req, d) && !Ready(w, d.id) then most + [Skipped(d.id, CurrentState(w, d.id))] else most
  }

  // ---- ordering ------------------------------------------------------------

  predicate ById(a: DeviceRow, b: DeviceRow) {
    a.id <= b.id
  }

  function SortById(s: seq<DeviceRow>): (r: seq<DeviceRow>)
    ensures |r| == |s|
  {
    Sort(s, ById)
  }

  lemma ByIdIsOrder()
    ensures TotalPreorder(ById)
  {
  }

  lemma {:induction false} EligibleExactly(w: World, req: DraftRequest, devices: seq<DeviceRow>)
    ensures forall d :: d in Eligible(w, req, devices) <==> d in devices && InScope(req, d) && Ready(w, d.id)
    ensures |Eligible(w, req, devices)| + |SkippedOf(w, req, devices)| <= |devices|
  {
    if devices == [] {
    } else {
      EligibleExactly(w, req, devices[..|devices| - 1]);
      assert devices == devices[..|devices| - 1] + [devices[|devices| - 1]];
    }
  }

  /** The ordered candidates are the ready devices in scope, ascending by id. */
  lemma OrderedCandidates(w: World, req: DraftRequest)
    ensures var eligible := SortById(Eligible(w, req, w.devices));
            && (forall d :: d in eligible <==> d in w.devices && InScope(req, d) && Ready(w, d.id))
            && forall i, j :: 0 <= i < j < |eligible| ==> eligible[i].id <= eligible[j].id
  {
    var raw := Eligible(w, req, w.devices);
    var eligible := Sort(raw, ById);
    EligibleExactly(w, req, w.devices);
    SortPermutes(raw, ById);
    ByIdIsOrder();
    SortSorts(raw, ById);
    assert forall i, j :: 0 <= i < j < |eligible| ==> ById(eligible[i], eligible[j]);
  }

  // ---- what a request asks for ---------------------------------------------

  /** The change window lies ahead and is neither too short nor too long. */
  ghost predicate WindowFits(w: World, req: DraftRequest) {
    && w.now < req.windowStart && req.windowStart < req.windowEnd
    && w.limits.minWindow <= req.windowEnd - req.windowStart <= w.limits.maxWindow
  }

  /** The selector covers the device, whose tags are out of reach. */
  ghost predicate Asked(req: DraftRequest, d: DeviceRow) {
    ScopeSelector.Matches(req.selector, d.facts.(tags := None))
  }

  ghost predicate LatestIsReady(w: World, d: DeviceRow) {
    d.id in w.latest && w.latest[d.id].state == ReadyState
  }

  /** The places of the devices that are asked for and ready, and of those that are asked for and not ready. */
  ghost function Candidates(w: World, req: DraftRequest, devices: seq<DeviceRow>): set<int> {
    set i | 0 <= i < |devices| && Asked(req, devices[i]) && LatestIsReady(w, devices[i])
  }

  ghost predicate LeftOut(w: World, req: DraftRequest, d: DeviceRow) {
    Asked(req, d) && !LatestIsReady(w, d)
  }

  ghost predicate LeftOutAs(w: World, req: DraftRequest, devices: seq<DeviceRow>, i: nat, x: Skipped) {
    && i < |devices| && LeftOut(w, req, devices[i])
    && x == Skipped(devices[i].id, if devices[i].id in w.latest then Some(w.latest[devices[i].id].state) else None)
  }

  /** The skipped devices are those left out, at these places, in the order of the table. */
  ghost predicate SkipsAt(w: World, req: DraftRequest, devices: seq<DeviceRow>, skipped: seq<Skipped>, at: seq<nat>) {
    && |at| == |skipped| && Ascending(at)
    && (forall k :: 0 <= k < |at| ==> LeftOutAs(w, req, devices, at[k], skipped[k]))
    && (forall i :: 0 <= i < |devices| && LeftOut(w, req, devices[i]) ==> i in at)
  }

  ghost predicate Skips(w: World, req: DraftRequest, skipped: seq<Skipped>) {
    exists at :: SkipsAt(w, req, w.devices, skipped, at)
  }

  ghost predicate IsCandidate(w: World, req: DraftRequest, d: DeviceRow) {
    d in w.devices && Asked(req, d) && LatestIsReady(w, d)
  }

  /** The list holds the candidates, ascending by id, as often as the table does. */
  ghost predicate HoldsCandidates(w: World, req: DraftRequest, chosen: seq<DeviceRow>) {
    && |chosen| == |Candidates(w, req, w.devices)|
    && (forall d :: d in chosen <==> IsCandidate(w, req, d))
    && (forall i, j :: 0 <= i < j < |chosen| ==> chosen[i].id <= chosen[j].id)
  }

  ghost predicate ShowsRow(w: World, d: DeviceRow, row: PreviewRow) {
    d.id in w.latest &&
    row == PreviewRow(d.id, d.hostname, ReadyState, w.latest[d.id].targetVersion, w.latest[d.id].observedVersion)
  }

  ghost predicate ShowsRows(w: World, chosen: seq<DeviceRow>, rows: seq<PreviewRow>) {
    |rows| == |chosen| && forall i :: 0 <= i < |chosen| ==> ShowsRow(w, chosen[i], rows[i])
  }

  ghost predicate ShowsMember(w: World, d: DeviceRow, position: nat, m: Member) {
    && d.id in w.latest && m.device == d.id && m.position == position && m.readinessRef == Some(w.latest[d.id].id)
    && m.snapshotTarget == w.latest[d.id].targetVersion && m.snapshotObserved == w.latest[d.id].observedVersion
  }

  ghost predicate ShowsMembers(w: World, chosen: seq<DeviceRow>, members: seq<Member>) {
    |members| == |chosen| && forall i :: 0 <= i < |chosen| ==> ShowsMember(w, chosen[i], i + 1, members[i])
  }

  /** The wave of a request: its own columns, its candidates at positions one to n, and nobody's decision yet. */
  ghost predicate TellsDraft(w: World, req: DraftRequest, row: Wave) {
    && row.state == Draft && row.plan == req.plan && row.idempotencyKey == req.idempotencyKey
    && row.draftedBy == req.actor && row.draftedAt == w.now
    && row.targetVersion == req.targetVersion && row.platformFamily == req.platformFamily
    && row.submittedBy == None && row.approvedBy == None && row.rejectedBy == None && row.cancelledBy == None
    && row.citation == None && row.invalidatedReason == None
    && exists chosen :: HoldsCandidates(w, req, chosen) && ShowsMembers(w, chosen, row.members)
  }

  ghost predicate Unrecognised(req: DraftRequest) {
    exists leaf :: leaf in req.selector && leaf.UnrecognisedKey?
  }

  ghost predicate SomeLeftOut(w: World, req: DraftRequest) {
    exists d :: d in w.devices && LeftOut(w, req, d)
  }

  /** The checks of a draft, in their order, and the error of the first one that fails. */
  ghost predicate StoppedBy(w: World, req: DraftRequest, e: DraftError) {
    var count := |Candidates(w, req, w.devices)|;
    if !WindowFits(w, req) then e == InvalidChangeWindow
    else if (req.platformFamily, req.targetVersion) !in w.liveTargets then e == TargetVersionNotLive
    else if Unrecognised(req) then e == UnknownSelectorKey
    else if req.strict && SomeLeftOut(w, req) then e.IneligibleDevicesInScope? && Skips(w, req, e.skipped)
    else if count == 0 then e == EmptyWave
    else count > w.limits.maxDevices && e == WaveTooLarge(count, w.limits.maxDevices)
  }

  ghost predicate NothingStops(w: World, req: DraftRequest) {
    && WindowFits(w, req) && (req.platformFamily, req.targetVersion) in w.liveTargets && !Unrecognised(req)
    && !(req.strict && SomeLeftOut(w, req)) && 0 < |Candidates(w, req, w.devices)| <= w.limits.maxDevices
  }

  ghost predicate Warns(w: World, req: DraftRequest, p: Preview, skipped: seq<Skipped>) {
    && p.skipped == (if req.strict then [] else skipped)
    && p.warnings == (if WindowFits(w, req) then [] else [WindowWarning]) +
                     (if (req.platformFamily, req.targetVersion) in w.liveTargets then [] else [TargetWarning]) +
                     (if req.strict && skipped != [] then [IneligibleWarning(|skipped|)] else []) +
                     (if p.rows == [] then [EmptyWarning] else [])
  }

  /** A preview shows the candidates and what a draft would stumble over. */
  ghost predicate TellsPreview(w: World, req: DraftRequest, p: Preview) {
    && (exists chosen :: HoldsCandidates(w, req, chosen) && ShowsRows(w, chosen, p.rows) && p.proposed == |chosen|)
    && (exists skipped :: Skips(w, req, skipped) && Warns(w, req, p, skipped))
    && (p.windowValid <==> WindowFits(w, req))
    && (p.targetLive <==> (req.platformFamily, req.targetVersion) in w.liveTargets)
  }

  /** A wave of the plan carries the key of the request, and is not too old for a replay. */
  ghost predicate Remembered(w: World, waves: map<WaveId, Wave>, req: DraftRequest, id: WaveId) {
    && id in waves && waves[id].plan == req.plan && waves[id].idempotencyKey.Some?
    && waves[id].idempotencyKey == req.idempotencyKey && w.now <= waves[id].draftedAt + w.limits.idempotencyTtl
  }

  /**
   A request: a remembered one answers with its wave again. Another one either stops at the first check
   that fails and leaves the table alone, or stores its wave and takes its key from an older one.
  */
  ghost predicate TellsRequest(w: World, waves: map<WaveId, Wave>, req: DraftRequest, newId: WaveId,
                               r: Result<Outcome, DraftError>, after: map<WaveId, Wave>)
  {
    if exists id :: Remembered(w, waves, req, id) then
      after == waves && exists id :: Remembered(w, waves, req, id) && r == Ok(Outcome(id, waves[id], [], true))
    else match r
      case Err(e) => after == waves && StoppedBy(w, req, e)
      case Ok(o) => NothingStops(w, req) && TellsSuccess(w, waves, req, newId, o, after)
  }

  /** The stored wave, what was skipped for it, and the key that an older wave of the plan gives up. */
  ghost predicate TellsSuccess(w: World, waves: map<WaveId, Wave>, req: DraftRequest, newId: WaveId, o: Outcome,
                               after: map<WaveId, Wave>)
  {
    && o.wave == newId && !o.replayed && after.Keys == waves.Keys + {newId}
    && o.row == after[newId] && TellsDraft(w, req, o.row)
    && (if req.strict then o.skipped == [] else Skips(w, req, o.skipped))
    && forall x :: x in waves && x != newId ==>
         after[x] == if waves[x].plan == req.plan && req.idempotencyKey.Some? &&
                        waves[x].idempotencyKey == req.idempotencyKey
                     then waves[x].(idempotencyKey := None) else waves[x]
  }

  /** The loop both entry points share: splits the devices in scope by readiness. */
  method Classify(w: World, req: DraftRequest) returns (eligible: seq<DeviceRow>, skipped: seq<Skipped>)
    ensures eligible == Eligible(w, req, w.devices)
    ensures skipped == SkippedOf(w, req, w.devices)
  {
    eligible, skipped := [], [];
    for i := 0 to |w.devices|
      invariant eligible == Eligible(w, req, w.devices[..i])
      invariant skipped == SkippedOf(w, req, w.devices[..i])
    {
      var d := w.devices[i];
      assert w.devices[..i + 1][..i] == w.devices[..i];
      if ScopeSelector.Matches(req.selector, WaveFacts(d)) {
        if d.id in w.latest && w.latest[d.id].state == ReadyState {
          eligible := eligible + [d];
        } else {
          skipped := skipped + [Skipped(d.id, CurrentState(w, d.id))];
        }
      }
    }
    assert w.devices[..|w.devices|] == w.devices;
  }

  function RowFor(w: World, d: DeviceRow): PreviewRow {
    if d.id in w.latest
    then PreviewRow(d.id, d.hostname, w.latest[d.id].state, w.latest[d.id].targetVersion,
                    w.latest[d.id].observedVersion)
    else PreviewRow(d.id, d.hostname, NotApplicableState, None, None)
  }

  function MemberFor(w: World, d: DeviceRow, position: nat): Member {
    if d.id in w.latest
    then Member(d.id, position, Some(w.latest[d.id].id), w.latest[d.id].targetVersion, w.latest[d.id].observedVersion)
    else Member(d.id, position, None, None, None)
  }

  function RowsFor(w: World, ordered: seq<DeviceRow>): (rows: seq<PreviewRow>)
    ensures |rows| == |ordered|
    ensures forall i :: 0 <= i < |rows| ==> rows[i] == RowFor(w, ordered[i])
  {
    seq(|ordered|, i requires 0 <= i < |ordered| => RowFor(w, ordered[i]))
  }

  /** Positions count from one. */
  function MembersFor(w: World, ordered: seq<DeviceRow>): (members: seq<Member>)
    ensures |members| == |ordered|
    ensures forall i :: 0 <= i < |members| ==> members[i] == MemberFor(w, ordered[i], i + 1)
  {
    seq(|ordered|, i requires 0 <= i < |ordered| => MemberFor(w, ordered[i], i + 1))
  }

  // ---- preview -------------------------------------------------------------

  ghost function PreviewOf(w: World, req: DraftRequest): Result<Preview, DraftError> {
    if !ScopeSelector.KnownKeys(req.selector) then Err(UnknownSelectorKey)
    else
      var eligible := SortById(Eligible(w, req, w.devices));
      var skipped := SkippedOf(w, req, w.devices);
      var windowValid := WindowValid(w, req.windowStart, req.windowEnd);
      var targetLive := (req.platformFamily, req.targetVersion) in w.liveTargets;
      Ok(Preview(|eligible|, if req.strict then [] else skipped,
                 RowsFor(w, eligible), windowValid, targetLive,
                 WarningsFor(windowValid, targetLive, req.strict, |skipped|, |eligible|)))
  }

  function WarningsFor(windowValid: bool, targetLive: bool, strict: bool, skipped: nat, eligible: nat): seq<Warning> {
    Warn(!windowValid, WindowWarning) + Warn(!targetLive, TargetWarning) +
    Warn(strict && skipped > 0, IneligibleWarning(skipped)) + Warn(eligible == 0, EmptyWarning)
  }

  function Warn(raised: bool, warning: Warning): seq<Warning> {
    if raised then [warning] else []
  }

  method PreviewRows(w: World, ordered: seq<DeviceRow>) returns (rows: seq<PreviewRow>)
    ensures rows == RowsFor(w, ordered)
  {
    rows := [];
    for i := 0 to |ordered|
      invariant |rows| == i
      invariant forall k :: 0 <= k < i ==> rows[k] == RowFor(w, ordered[k])
    {
      rows := rows + [RowFor(w, ordered[i])];
    }
  }

  method CollectWarnings(w: World, req: DraftRequest, skipped: seq<Skipped>, eligible: seq<DeviceRow>)
    returns (windowValid: bool, targetLive: bool, warnings: seq<Warning>)
    ensures windowValid == WindowValid(w, req.windowStart, req.windowEnd)
    ensures targetLive == ((req.platformFamily, req.targetVersion) in w.liveTargets)
    ensures warnings == WarningsFor(windowValid, targetLive, req.strict, |skipped|, |eligible|)
  {
    warnings, windowValid, targetLive := [], true, true;
    if !WindowValid(w, req.windowStart, req.windowEnd) {
      windowValid := false;
      warnings := warnings + [WindowWarning];
    }
    if (req.platformFamily, req.targetVersion) !in w.liveTargets {
      targetLive := false;
      warnings := warnings + [TargetWarning];
    }
    if req.strict && skipped != [] {
      warnings := warnings + [IneligibleWarning(|skipped|)];
    }
    if eligible == [] {
      warnings := warnings + [EmptyWarning];
    }
  }

  /** The read-only proposal: it keeps going and collects warnings where a draft would stop. */
  method PreviewDraft(w: World, req: DraftRequest) returns (r: Result<Preview, DraftError>)
    ensures if Unrecognised(req) then r == Err(UnknownSelectorKey) else r.Ok? && TellsPreview(w, req, r.value)
    ensures r == PreviewOf(w, req)
  {
    PreviewIsTold(w, req);
    if !ScopeSelector.KnownKeys(req.selector) {
      return Err(UnknownSelectorKey);
    }
    var eligible, skipped := Classify(w, req);
    var windowValid, targetLive, warnings := CollectWarnings(w, req, skipped, eligible);
    var ordered := SortById(eligible);
    var rows := PreviewRows(w, ordered);
    r := Ok(Preview(|eligible|, if req.strict then [] else skipped, rows, windowValid, targetLive, warnings));
  }

  // ---- draft ---------------------------------------------------------------

  ghost predicate Labels(waves: map<WaveId, Wave>, id: WaveId, plan: nat, key: string) {
    id in waves && waves[id].plan == plan && waves[id].idempotencyKey == Some(key)
  }

  /** The unique index on plan and idempotency key. */
  ghost predicate KeysUnique(waves: map<WaveId, Wave>) {
    forall x, y, plan, key :: Labels(waves, x, plan, key) && Labels(waves, y, plan, key) ==> x == y
  }

  ghost predicate Fresh(waves: map<WaveId, Wave>, req: DraftRequest) {
    req.idempotencyKey.None? || !exists id :: Labels(waves, id, req.plan, req.idempotencyKey.value)
  }

  ghost predicate Replays(w: World, waves: map<WaveId, Wave>, req: DraftRequest, id: WaveId) {
    && req.idempotencyKey.Some?
    && Labels(waves, id, req.plan, req.idempotencyKey.value)
    && w.now - waves[id].draftedAt <= w.limits.idempotencyTtl
  }

  /** The wave that a successful draft stores. */
  ghost function DraftedWave(w: World, req: DraftRequest): Wave {
    var eligible := SortById(Eligible(w, req, w.devices));
    Wave(Draft, req.plan, req.idempotencyKey, req.actor, w.now, req.targetVersion, req.platformFamily,
         MembersFor(w, eligible), None, None, None, None, None, None)
  }

  /** Which check stops a fresh draft first, if any. */
  ghost function Obstacle(w: World, req: DraftRequest): Option<DraftError> {
    var eligible := SortById(Eligible(w, req, w.devices));
    var skipped := SkippedOf(w, req, w.devices);
    if !WindowValid(w, req.windowStart, req.windowEnd) then Some(InvalidChangeWindow)
    else if (req.platformFamily, req.targetVersion) !in w.liveTargets then Some(TargetVersionNotLive)
    else if !ScopeSelector.KnownKeys(req.selector) then Some(UnknownSelectorKey)
    else if req.strict && skipped != [] then Some(IneligibleDevicesInScope(skipped))
    else if eligible == [] then Some(EmptyWave)
    else if |eligible| > w.limits.maxDevices then Some(WaveTooLarge(|eligible|, w.limits.maxDevices))
    else None
  }

  ghost function Released(waves: map<WaveId, Wave>, plan: nat, key: Option<string>): map<WaveId, Wave> {
    map x | x in waves :: if key.Some? && Labels(waves, x, plan, key.value)
               then waves[x].(idempotencyKey := None) else waves[x]
  }

  method NumberMembers(w: World, ordered: seq<DeviceRow>) returns (members: seq<Member>)
    ensures members == MembersFor(w, ordered)
  {
    members := [];
    for i := 0 to |ordered|
      invariant |members| == i
      invariant forall k :: 0 <= k < i ==> members[k] == MemberFor(w, ordered[k], k + 1)
    {
      members := members + [MemberFor(w, ordered[i], i + 1)];
    }
  }

  class WaveTable {
    var waves: map<WaveId, Wave>

    constructor ()
      ensures waves == map[]
    {
      waves := map[];
    }

    /** The lookup by key: a wave within its lifetime is found, and an older one loses the key. */
    method FindOrFree(w: World, req: DraftRequest) returns (replayed: Option<WaveId>)
      requires KeysUnique(waves)
      modifies this
      ensures replayed.Some? ==>
                && waves == old(waves) && replayed.value in waves
                && forall id :: Replays(w, waves, req, id) <==> id == replayed.value
      ensures replayed.None? ==> waves == Released(old(waves), req.plan, req.idempotencyKey)
      ensures replayed.None? ==> !exists id :: Replays(w, old(waves), req, id)
    {
      if req.idempotencyKey.None? {
        return None;
      }
      var hits := set x | x in waves && waves[x].plan == req.plan && waves[x].idempotencyKey == req.idempotencyKey;
      assert forall x :: x in hits <==> Labels(waves, x, req.plan, req.idempotencyKey.value);
      if hits == {} {
        return None;
      }
      var existing :| existing in hits;
      assert hits == {existing};
      if w.now - waves[existing].draftedAt <= w.limits.idempotencyTtl {
        return Some(existing);
      }
      waves := waves[existing := waves[existing].(idempotencyKey := None)];
      return None;
    }

    /**
     The controller. On an error it may already have freed the key of an expired wave; undoing
     that is the job of the request that owns the transaction.
    */
    method DraftWave(w: World, req: DraftRequest, newId: WaveId) returns (r: Result<Outcome, DraftError>)
      requires KeysUnique(waves) && newId !in waves
      modifies this
      ensures forall id :: Replays(w, old(waves), req, id) ==>
                r == Ok(Outcome(id, old(waves)[id], [], true)) && waves == old(waves)
      ensures (!exists id :: Replays(w, old(waves), req, id)) ==>
                match Obstacle(w, req)
                case Some(e) => r == Err(e)
                case None =>
                  waves == Released(old(waves), req.plan, req.idempotencyKey)[newId := DraftedWave(w, req)] &&
                  r == Ok(Outcome(newId, DraftedWave(w, req),
                                             if req.strict then [] else SkippedOf(w, req, w.devices), false))
    {
      var replayed := FindOrFree(w, req);
      if replayed.Some? {
        return Ok(Outcome(replayed.value, waves[replayed.value], [], true));
      }
      if !WindowValid(w, req.windowStart, req.windowEnd) {
        return Err(InvalidChangeWindow);
      }
      if (req.platformFamily, req.targetVersion) !in w.liveTargets {
        return Err(TargetVersionNotLive);
      }
      if !ScopeSelector.KnownKeys(req.selector) {
        return Err(UnknownSelectorKey);
      }
      var eligible, skipped := Classify(w, req);
      if req.strict && skipped != [] {
        return Err(IneligibleDevicesInScope(skipped));
      }
      var ordered := SortById(eligible);
      if eligible == [] {
        return Err(EmptyWave);
      }
      if |eligible| > w.limits.maxDevices {
        return Err(WaveTooLarge(|eligible|, w.limits.maxDevices));
      }
      var members := NumberMembers(w, ordered);
      var row := Wave(Draft, req.plan, req.idempotencyKey, req.actor, w.now, req.targetVersion, req.platformFamily,
                      members, None, None, None, None, None, None);
      assert row == DraftedWave(w, req);
      waves := waves[newId := row];
      r := Ok(Outcome(newId, row, if req.strict then [] else skipped, false));
    }

    /** A request: commits what the controller did, or rolls everything back when it raised. */
    method HandleDraft(w: World, req: DraftRequest, newId: WaveId) returns (r: Result<Outcome, DraftError>)
      requires KeysUnique(waves) && newId !in waves
      modifies this
      ensures TellsRequest(w, old(waves), req, newId, r, waves)
      ensures (r, waves) == DraftRequestOf(w, old(waves), req, newId)
    {
      RequestIsTold(w, waves, req, newId);
      var snapshot := waves;
      r := DraftWave(w, req, newId);
      if r.Err? {
        waves := snapshot;
      }
    }
  }

  /** The answer to a request that is not a replay, and the table it leaves. */
  ghost function Answer(w: World, waves: map<WaveId, Wave>, req: DraftRequest, newId: WaveId,
                        obstacle: Option<DraftError>, row: Wave, skipped: seq<Skipped>)
    : (Result<Outcome, DraftError>, map<WaveId, Wave>)
  {
    match obstacle
    case Some(e) => (Err(e), waves)
    case None =>
      (Ok(Outcome(newId, row, if req.strict then [] else skipped, false)),
       Released(waves, req.plan, req.idempotencyKey)[newId := row])
  }

  /** The specification of a draft request: its answer and the table afterwards. */
  ghost function DraftRequestOf(w: World, waves: map<WaveId, Wave>, req: DraftRequest, newId: WaveId)
    : (Result<Outcome, DraftError>, map<WaveId, Wave>)
  {
    if exists id :: Replays(w, waves, req, id) then
      var id :| Replays(w, waves, req, id);
      (Ok(Outcome(id, waves[id], [], true)), waves)
    else Answer(w, waves, req, newId, Obstacle(w, req), DraftedWave(w, req), SkippedOf(w, req, w.devices))
  }

  // ---- the specification against the request -------------------------------

  lemma {:induction false} CandidatesAreCounted(w: World, req: DraftRequest, devices: seq<DeviceRow>)
    ensures |Eligible(w, req, devices)| == |Candidates(w, req, devices)|
  {
    if devices == [] {
    } else {
      var most, last := devices[..|devices| - 1], devices[|devices| - 1];
      CandidatesAreCounted(w, req, most);
      OneMoreCandidate(w, req, most, last, devices);
    }
  }

  lemma OneMoreCandidate(w: World, req: DraftRequest, most: seq<DeviceRow>, last: DeviceRow, devices: seq<DeviceRow>)
    requires devices == most + [last]
    ensures |Candidates(w, req, devices)| ==
            |Candidates(w, req, most)| + (if InScope(req, last) && Ready(w, last.id) then 1 else 0)
  {
    assert devices[|most|] == last && forall i :: 0 <= i < |most| ==> devices[i] == most[i];
    assert Candidates(w, req, devices) ==
           Candidates(w, req, most) + (if Asked(req, last) && LatestIsReady(w, last) then {|most|} else {});
  }

  lemma EligibleAreCandidates(w: World, req: DraftRequest)
    ensures HoldsCandidates(w, req, SortById(Eligible(w, req, w.devices)))
  {
    OrderedCandidates(w, req);
    CandidatesAreCounted(w, req, w.devices);
  }

  lemma {:induction false} SkippedAreLeftOut(w: World, req: DraftRequest, devices: seq<DeviceRow>)
    returns (at: seq<nat>)
    ensures SkipsAt(w, req, devices, SkippedOf(w, req, devices), at)
  {
    if devices == [] {
      at := [];
    } else {
      var most, last := devices[..|devices| - 1], devices[|devices| - 1];
      at := SkippedAreLeftOut(w, req, most);
      assert devices == most + [last];
      at := OneMoreLeftOut(w, req, most, last, SkippedOf(w, req, most), at);
    }
  }

  lemma OneMoreLeftOut(w: World, req: DraftRequest, most: seq<DeviceRow>, last: DeviceRow, skipped: seq<Skipped>,
                       at: seq<nat>)
    returns (all: seq<nat>)
    requires SkipsAt(w, req, most, skipped, at)
    ensures SkipsAt(w, req, most + [last],
                    if InScope(req, last) && !Ready(w, last.id)
                    then skipped + [Skipped(last.id, CurrentState(w, last.id))] else skipped, all)
  {
    var devices := most + [last];
    forall k | 0 <= k < |at| ensures LeftOutAs(w, req, devices, at[k], skipped[k]) && at[k] < |most| {
      assert LeftOutAs(w, req, most, at[k], skipped[k]);
    }
    AscendingSnoc(at, |most|);
    all := if LeftOut(w, req, last) then at + [|most|] else at;
    forall i | 0 <= i < |devices| && LeftOut(w, req, devices[i]) ensures i in all {
      if i < |most| {
        assert LeftOut(w, req, most[i]) && i in at;
      }
    }
  }

  lemma SkippedIsTold(w: World, req: DraftRequest)
    ensures Skips(w, req, SkippedOf(w, req, w.devices))
    ensures SkippedOf(w, req, w.devices) != [] <==> SomeLeftOut(w, req)
  {
    var skipped := SkippedOf(w, req, w.devices);
    var at := SkippedAreLeftOut(w, req, w.devices);
    if skipped != [] {
      assert LeftOutAs(w, req, w.devices, at[0], skipped[0]);
      assert w.devices[at[0]] in w.devices;
    }
    if d :| d in w.devices && LeftOut(w, req, d) {
      var i :| 0 <= i < |w.devices| && w.devices[i] == d;
      assert i in at;
    }
  }

  lemma UnrecognisedIff(req: DraftRequest)
    ensures Unrecognised(req) <==> !ScopeSelector.KnownKeys(req.selector)
  {
    if i :| 0 <= i < |req.selector| && req.selector[i].UnrecognisedKey? {
      assert req.selector[i] in req.selector;
    }
  }

  lemma RowsAreShown(w: World, req: DraftRequest)
    ensures var chosen := SortById(Eligible(w, req, w.devices));
            ShowsRows(w, chosen, RowsFor(w, chosen)) && ShowsMembers(w, chosen, MembersFor(w, chosen))
  {
    OrderedCandidates(w, req);
    var chosen := SortById(Eligible(w, req, w.devices));
    forall i | 0 <= i < |chosen| ensures Ready(w, chosen[i].id) {
      assert chosen[i] in chosen;
    }
  }

  lemma PreviewIsTold(w: World, req: DraftRequest)
    ensures var r := PreviewOf(w, req);
            if Unrecognised(req) then r == Err(UnknownSelectorKey) else r.Ok? && TellsPreview(w, req, r.value)
  {
    UnrecognisedIff(req);
    if !Unrecognised(req) {
      PreviewTellsRows(w, req, PreviewOf(w, req).value);
      PreviewTellsWarnings(w, req, PreviewOf(w, req).value);
    }
  }

  lemma PreviewTellsRows(w: World, req: DraftRequest, p: Preview)
    requires PreviewOf(w, req) == Ok(p)
    ensures exists chosen :: HoldsCandidates(w, req, chosen) && ShowsRows(w, chosen, p.rows) && p.proposed == |chosen|
  {
    EligibleAreCandidates(w, req);
    RowsAreShown(w, req);
    var chosen := SortById(Eligible(w, req, w.devices));
    assert HoldsCandidates(w, req, chosen) && ShowsRows(w, chosen, p.rows) && p.proposed == |chosen|;
  }

  lemma PreviewTellsWarnings(w: World, req: DraftRequest, p: Preview)
    requires PreviewOf(w, req) == Ok(p)
    ensures exists skipped :: Skips(w, req, skipped) && Warns(w, req, p, skipped)
  {
    SkippedIsTold(w, req);
    assert Warns(w, req, p, SkippedOf(w, req, w.devices));
  }

  lemma ObstacleStops(w: World, req: DraftRequest)
    ensures match Obstacle(w, req) case Some(e) => StoppedBy(w, req, e) case None => NothingStops(w, req)
  {
    UnrecognisedIff(req);
    EligibleAreCandidates(w, req);
    SkippedIsTold(w, req);
    assert WindowFits(w, req) <==> WindowValid(w, req.windowStart, req.windowEnd);
  }

  lemma DraftIsTold(w: World, req: DraftRequest)
    ensures TellsDraft(w, req, DraftedWave(w, req))
  {
    EligibleAreCandidates(w, req);
    RowsAreShown(w, req);
    var chosen := SortById(Eligible(w, req, w.devices));
    assert HoldsCandidates(w, req, chosen) && ShowsMembers(w, chosen, DraftedWave(w, req).members);
  }

  lemma RememberedIff(w: World, waves: map<WaveId, Wave>, req: DraftRequest)
    ensures forall id :: Remembered(w, waves, req, id) <==> Replays(w, waves, req, id)
  {
  }

  lemma SuccessIsTold(w: World, waves: map<WaveId, Wave>, req: DraftRequest, newId: WaveId, o: Outcome)
    requires newId !in waves && o.wave == newId && !o.replayed && TellsDraft(w, req, o.row)
    requires if req.strict then o.skipped == [] else Skips(w, req, o.skipped)
    ensures TellsSuccess(w, waves, req, newId, o, Released(waves, req.plan, req.idempotencyKey)[newId := o.row])
  {
    var after := Released(waves, req.plan, req.idempotencyKey)[newId := o.row];
    assert after.Keys == waves.Keys + {newId};
  }

  lemma AnswerIsTold(w: World, waves: map<WaveId, Wave>, req: DraftRequest, newId: WaveId,
                     obstacle: Option<DraftError>, row: Wave, skipped: seq<Skipped>)
    requires newId !in waves && !(exists id :: Remembered(w, waves, req, id))
    requires match obstacle case Some(e) => StoppedBy(w, req, e) case None => NothingStops(w, req)
    requires TellsDraft(w, req, row) && Skips(w, req, skipped)
    ensures var (r, after) := Answer(w, waves, req, newId, obstacle, row, skipped);
            TellsRequest(w, waves, req, newId, r, after)
  {
    if obstacle.None? {
      SuccessIsTold(w, waves, req, newId, Outcome(newId, row, if req.strict then [] else skipped, false));
    }
  }

  lemma RequestIsTold(w: World, waves: map<WaveId, Wave>, req: DraftRequest, newId: WaveId)
    requires KeysUnique(waves) && newId !in waves
    ensures var (r, after) := DraftRequestOf(w, waves, req, newId); TellsRequest(w, waves, req, newId, r, after)
  {
    RememberedIff(w, waves, req);
    if !exists id :: Replays(w, waves, req, id) {
      ObstacleStops(w, req);
      DraftIsTold(w, req);
      SkippedIsTold(w, req);
      AnswerIsTold(w, waves, req, newId, Obstacle(w, req), DraftedWave(w, req), SkippedOf(w, req, w.devices));
    }
  }
}
