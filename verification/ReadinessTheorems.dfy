/** When a device is ready, what the blocker list shows, and how its history grows. */
module ReadinessTheorems {
  import opened Prelude
  import opened Sorting
  import opened Prerequisites
  import opened Readiness
  import ScopeSelector
  import UpgradePath

  // ---- the verdict ---------------------------------------------------------

  /** The input the full verdict is about: outside its target, fresh, and under no exception. */
  ghost predicate FullEvaluation(env: Env, d: Device) {
    && d.id in env.compliance
    && !Stale(env, env.compliance[d.id])
    && env.compliance[d.id].state == OutsideTarget
    && d.id !in env.activeException
  }

  lemma SortKeepsMembers(bs: seq<Blocker>)
    ensures forall b :: b in SortBlockers(bs) <==> b in bs
    ensures |SortBlockers(bs)| == |bs|
  {
    SortPermutes(bs, Before);
  }

  /**
   A device is ready exactly when no live, evaluable rule that applies to it stops it and, if its
   target version is known, some chain of live edges reaches that version within the weight cap.
  */
  lemma ReadyExactlyWhen(env: Env, d: Device)
    requires FullEvaluation(env, d)
    ensures Verdict(env, d).Ok? && Verdict(env, d).value.state != NotApplicable
    ensures Verdict(env, d).value.state == State.ReadyForUplift <==>
            && (forall r :: r in env.rules && Applies(r, d) ==> !HardBlocks(r, d, ObservedFirmware(env, d)))
            && (env.compliance[d.id].targetVersion.Some? ==> ChainFits(env, d, env.compliance[d.id]))
  {
    var c := env.compliance[d.id];
    var fits := ChainFits(env, d, c);
    var observed := ObservedFirmware(env, d);
    var rules := MatchingRules(env.rules, d);
    var raw := RawBlockers(rules, d, observed) + Synthetic(env, d, c, fits);
    SortKeepsMembers(raw);
    RawBlockersExactly(rules, d, observed);
    if r :| r in env.rules && Applies(r, d) && HardBlocks(r, d, observed) {
      var b := EvaluateRule(r, d, observed).value;
      assert b in SortBlockers(raw) && b.severity == Required;
    }
    if c.targetVersion.Some? && !fits {
      assert PathBlocker(env, d, c) in SortBlockers(raw);
    }
    if HasRequired(SortBlockers(raw)) {
      var i :| 0 <= i < |SortBlockers(raw)| && SortBlockers(raw)[i].severity == Required;
      assert SortBlockers(raw)[i] in raw;
    }
  }

  /** The evaluable live rules whose scope matches the device. */
  ghost function RulesOver(env: Env, d: Device): set<Rule> {
    set r | r in env.rules && r.live && r.evaluable && ScopeSelector.Matches(r.appliesTo, FactsOf(d))
  }

  /** Raised by one of the rules, or by a target version that no chain of live edges reaches within the cap. */
  ghost predicate Raised(env: Env, d: Device, c: ComplianceRow, fits: bool, b: Blocker) {
    || (exists r :: r in RulesOver(env, d) && EvaluateRule(r, d, ObservedFirmware(env, d)) == Some(b))
    || (!fits && c.targetVersion.Some? &&
        b == Blocker(None, None, MissingUpgradePath, Required,
                     NoChain(c.targetVersion.value, d.facts.platform, c.observedVersion, env.weightCap)))
  }

  /** What is recommended follows from the state and the first blocker. */
  ghost predicate Recommends(row: Row, platform: Option<string>) {
    if row.state == ReadyForUplift then row.actions == [ScheduleUpliftWave(row.targetVersion, platform)]
    else
      && row.blockers != []
      && var primary := row.blockers[0];
         match primary.kind
         case MinRamMb => row.actions == [HardwareRefresh(primary.finding)]
         case MinDiskMb => row.actions == [HardwareRefresh(primary.finding)]
         case HardwareRevisionIn => row.actions == [HardwareRefresh(primary.finding)]
         case LicensePresent => row.actions == [LicenseAcquire(primary.finding)]
         case MinCurrentVersion =>
           row.actions == [FirmwareIntermediateStep(row.targetVersion, platform, primary.finding)]
         case IntermediateVersionRequired =>
           row.actions == [FirmwareIntermediateStep(row.targetVersion, platform, primary.finding)]
         case MissingUpgradePath =>
           row.actions == [FirmwareIntermediateStep(row.targetVersion, platform, primary.finding)]
         case MissingObservationField => row.actions == [ImportObservation(primary.finding)]
         case NotInState => row.actions == [EscalateToCatalogOwner(primary.finding)]
         case RegionIn => row.actions == [EscalateToCatalogOwner(primary.finding)]
         case TaggedWith => row.actions == [EscalateToCatalogOwner(primary.finding)]
  }

  /**
   The whole row of a full evaluation: versions and reference of the compliance row, the number of
   rules, the chain under the cap, exactly what was raised in the canonical order, blocked if any of
   it is required, and what that recommends.
  */
  lemma FullRowExactly(env: Env, d: Device)
    requires FullEvaluation(env, d) && DistinctIds(env.rules)
    ensures var c := env.compliance[d.id];
            var fits := ChainFits(env, d, c);
            && Verdict(env, d).Ok?
            && var row := Verdict(env, d).value;
               && row.targetVersion == c.targetVersion && row.observedVersion == c.observedVersion
               && row.complianceRef == Some(c.id) && row.reasons == [] && row.pathExists == fits
               && row.rulesCount == |RulesOver(env, d)|
               && (forall b :: b in row.blockers <==> Raised(env, d, c, fits, b))
               && (forall i, j :: 0 <= i < j < |row.blockers| ==> InOrder(row.blockers[i], row.blockers[j]))
               && row.state == (if exists b :: b in row.blockers && b.severity == Required
                                then State.Blocked else State.ReadyForUplift)
               && Recommends(row, d.facts.platform)
  {
    var c := env.compliance[d.id];
    var fits := ChainFits(env, d, c);
    RulesAreCounted(env, d);
    RaisedExactly(env, d, c, fits);
    RowInOrder(d.facts.platform, c, fits, |MatchingRules(env.rules, d)|, AllBlockers(env, d, c, fits));
  }

  lemma RulesAreCounted(env: Env, d: Device)
    requires DistinctIds(env.rules)
    ensures |MatchingRules(env.rules, d)| == |RulesOver(env, d)|
    ensures forall r :: r in MatchingRules(env.rules, d) <==> r in RulesOver(env, d)
  {
    MatchingRulesDistinct(env.rules, d);
    DistinctIdsAreDistinct(MatchingRules(env.rules, d));
    DistinctCardinality(MatchingRules(env.rules, d));
    assert Elements(MatchingRules(env.rules, d)) == RulesOver(env, d);
  }

  lemma RaisedExactly(env: Env, d: Device, c: ComplianceRow, fits: bool)
    ensures forall b :: b in AllBlockers(env, d, c, fits) <==> Raised(env, d, c, fits, b)
  {
    RawBlockersExactly(MatchingRules(env.rules, d), d, ObservedFirmware(env, d));
    forall r ensures r in MatchingRules(env.rules, d) <==> r in RulesOver(env, d) {
    }
  }

  lemma RowInOrder(platform: Option<string>, c: ComplianceRow, fits: bool, n: nat, raised: seq<Blocker>)
    ensures var row := RowWith(platform, c, fits, n, SortBlockers(raised));
            && (forall b :: b in row.blockers <==> b in raised)
            && (forall i, j :: 0 <= i < j < |row.blockers| ==> InOrder(row.blockers[i], row.blockers[j]))
            && row.state == (if exists b :: b in row.blockers && b.severity == Required
                             then State.Blocked else State.ReadyForUplift)
            && Recommends(row, platform)
  {
    var sorted := SortBlockers(raised);
    SortedInOrder(raised);
    SortKeepsMembers(raised);
    if b :| b in sorted && b.severity == Required {
      var i :| 0 <= i < |sorted| && sorted[i] == b;
      assert HasRequired(sorted);
    }
  }

  /**
   The other verdicts: no compliance row, one that is too old, one that is not outside its target, an
   exception in force. Each gives its own reason and nothing to do.
  */
  lemma CarvedOutExactly(env: Env, d: Device)
    ensures d.id !in env.compliance ==>
              Verdict(env, d) == Ok(Row(NotApplicable, None, None, false, 0, [], [],
                                        [CarvedOut(NoComplianceEvaluation, None)], None))
    ensures d.id in env.compliance ==>
              var c := env.compliance[d.id];
              var aside := (reason: Reason) =>
                Ok(Row(NotApplicable, c.targetVersion, c.observedVersion, false, 0, [], [], [reason], Some(c.id)));
              if (env.now - c.evaluatedAt) / 86400 > env.staleDays then Verdict(env, d) == Err(InputStale)
              else
                match c.state
                case Compliant => Verdict(env, d) == aside(CarvedOut(AlreadyCompliant, Some(c.state)))
                case Classified => Verdict(env, d) == aside(CarvedOut(NoTargetResolved, Some(c.state)))
                case TargetDefined => Verdict(env, d) == aside(CarvedOut(NoObservationToVerify, Some(c.state)))
                case UnknownFirmware => Verdict(env, d) == aside(CarvedOut(LifecycleUnknown, Some(c.state)))
                case OutsideTarget =>
                  if d.id in env.activeException
                  then Verdict(env, d) == aside(ActiveException(env.activeException[d.id]))
                  else FullEvaluation(env, d)
  {
  }

  /** Some rule that applies to the device stops it. */
  ghost predicate RuleStops(env: Env, d: Device) {
    exists r :: r in env.rules && Applies(r, d) && HardBlocks(r, d, ObservedFirmware(env, d))
  }

  /** The target version is known, but no chain of live edges reaches it within the cap. */
  ghost predicate ChainMissing(env: Env, d: Device)
    requires d.id in env.compliance
  {
    env.compliance[d.id].targetVersion.Some? && !ChainFits(env, d, env.compliance[d.id])
  }

  /**
   Another set of upgrade edges leaves the state of a device as it is exactly when a rule stops the
   device anyway, or its target version is unknown, or a chain fits under both or under neither.
  */
  lemma EdgesDecideIff(env: Env, d: Device, edges: seq<UpgradePath.EdgeRow>)
    requires FullEvaluation(env, d)
    ensures var later, c := env.(edges := edges), env.compliance[d.id];
            && Verdict(env, d).Ok? && Verdict(later, d).Ok?
            && (Verdict(later, d).value.state == Verdict(env, d).value.state <==>
                  RuleStops(env, d) || c.targetVersion.None? || ChainFits(later, d, c) == ChainFits(env, d, c))
  {
    ReadyExactlyWhen(env, d);
    ReadyExactlyWhen(env.(edges := edges), d);
  }

  /** Blocked means that the first listed blocker is a required one, and only then. */
  lemma BlockedExactlyWhenPrimaryRequired(env: Env, d: Device)
    requires FullEvaluation(env, d)
    ensures var row := Verdict(env, d).value;
            row.state == State.Blocked <==> row.blockers != [] && row.blockers[0].severity == Required
  {
    var c := env.compliance[d.id];
    var rules := MatchingRules(env.rules, d);
    var raw := RawBlockers(rules, d, ObservedFirmware(env, d)) + Synthetic(env, d, c, ChainFits(env, d, c));
    SortKeepsMembers(raw);
    if raw != [] {
      RequiredComesFirst(raw);
      assert HasRequired(SortBlockers(raw)) <==> exists b :: b in raw && b.severity == Required;
    }
  }

  lemma {:induction false} MatchingRulesDistinct(rules: seq<Rule>, d: Device)
    requires DistinctIds(rules)
    ensures DistinctIds(MatchingRules(rules, d))
  {
    if rules == [] {
    } else {
      var most, last := rules[..|rules| - 1], rules[|rules| - 1];
      MatchingRulesDistinct(most, d);
      forall r | r in MatchingRules(most, d) ensures r.id != last.id {
        assert r in most;
      }
    }
  }

  lemma DistinctIdsAreDistinct(rules: seq<Rule>)
    requires DistinctIds(rules)
    ensures Distinct(rules)
  {
  }

  /** The whole verdict is the same for every order in which the catalog returns its rules. */
  lemma VerdictIsOrderIndependent(env: Env, other: Env, d: Device)
    requires DistinctIds(env.rules) && DistinctIds(other.rules)
    requires multiset(env.rules) == multiset(other.rules) && other == env.(rules := other.rules)
    ensures Verdict(env, d) == Verdict(other, d)
  {
    if FullEvaluation(env, d) {
      var c := env.compliance[d.id];
      var a, b := MatchingRules(env.rules, d), MatchingRules(other.rules, d);
      SameLength(env.rules, other.rules);
      MatchingRulesDistinct(env.rules, d);
      MatchingRulesDistinct(other.rules, d);
      DistinctIdsAreDistinct(a);
      DistinctIdsAreDistinct(b);
      DistinctPermutation(a, b);
      SameLength(a, b);
      SortIsOrderIndependent(a, b, d, ObservedFirmware(env, d), Synthetic(env, d, c, ChainFits(env, d, c)));
    }
  }

  // ---- the history ---------------------------------------------------------

  ghost predicate AdjacentDiffer(rows: seq<Row>) {
    forall i :: 0 <= i < |rows| - 1 ==> !SameVerdict(rows[i], rows[i + 1])
  }

  ghost predicate HistoriesOk(s: Stored) {
    forall d :: d in s.history ==> AdjacentDiffer(s.history[d])
  }

  datatype Event =
    | Evaluation(env: Env, id: nat)
    | DeviceWritten(id: nat, device: Device)

  /** Evaluations in any environment, interleaved with any other writer of the device row. */
  ghost function After(s: Stored, e: Event): Stored {
    match e
    case Evaluation(env, id) => Evaluated(env, s, id)
    case DeviceWritten(id, d) => s.(devices := s.devices[id := d.(id := id)])
  }

  ghost function RunEvents(s: Stored, events: seq<Event>): Stored {
    if events == [] then s else After(RunEvents(s, events[..|events| - 1]), events[|events| - 1])
  }

  lemma EventKeepsHistories(s: Stored, e: Event)
    requires HistoriesOk(s)
    ensures HistoriesOk(After(s, e))
    ensures forall d :: d in s.history ==> d in After(s, e).history && s.history[d] <= After(s, e).history[d]
  {
    match e
    case Evaluation(env, id) =>
      if id in s.devices && Verdict(env, s.devices[id]).Ok? {
        EvaluatedIsRecorded(env, s, id);
        RecordingKeepsHistories(s, id, Verdict(env, s.devices[id]).value);
      }
    case DeviceWritten(_, _) =>
  }

  lemma RecordingKeepsHistories(s: Stored, id: nat, row: Row)
    requires HistoriesOk(s) && id in s.devices
    ensures HistoriesOk(Recorded(s, id, row))
    ensures forall d :: d in s.history ==>
              d in Recorded(s, id, row).history && s.history[d] <= Recorded(s, id, row).history[d]
  {
  }

  /** In any run adjacent rows of a device differ in what they say. */
  lemma {:induction false} AdjacentRowsAlwaysDiffer(devices: map<nat, Device>, events: seq<Event>)
    ensures HistoriesOk(RunEvents(Stored(devices, map[], []), events))
  {
    var start := Stored(devices, map[], []);
    if events == [] {
    } else {
      AdjacentRowsAlwaysDiffer(devices, events[..|events| - 1]);
      EventKeepsHistories(RunEvents(start, events[..|events| - 1]), events[|events| - 1]);
    }
  }

  /** No stored row is ever altered or removed: every history is a prefix of what it later becomes. */
  lemma {:induction false} HistoryOnlyGrows(s: Stored, events: seq<Event>, d: nat)
    requires d in s.history
    ensures d in RunEvents(s, events).history && s.history[d] <= RunEvents(s, events).history[d]
  {
    if events == [] {
    } else {
      HistoryOnlyGrows(s, events[..|events| - 1], d);
    }
  }

  /**
   After an evaluation the latest row tells the current verdict: all of it when readiness applies,
   and its reasons when it does not. The versions of a not-applicable row are not compared.
  */
  lemma LatestRowIsCurrent(env: Env, s: Stored, id: nat)
    requires id in s.devices && Verdict(env, s.devices[id]).Ok?
    ensures var row := Verdict(env, s.devices[id]).value;
            var history := HistoryOf(Evaluated(env, s, id), id);
            && history != []
            && var last := history[|history| - 1];
               && last.state == row.state
               && (row.state == NotApplicable ==> last.reasons == row.reasons && last.blockers == [])
               && (row.state != NotApplicable ==>
                     && last.targetVersion == row.targetVersion && last.observedVersion == row.observedVersion
                     && last.pathExists == row.pathExists && last.rulesCount == row.rulesCount
                     && last.actions == row.actions
                     && SameBlockerLists(last.blockers, row.blockers))
  {
    NotApplicableListsNothing(env, s.devices[id]);
    EvaluatedIsRecorded(env, s, id);
  }

  // ---- evaluating twice ----------------------------------------------------

  ghost predicate ReadsNoLifecycle(rules: seq<Rule>) {
    forall r :: r in rules ==> ScopeSelector.LifecycleFree(r.appliesTo) && !r.predicate_.StateNotAmong?
  }

  lemma RuleIgnoresLifecycle(r: Rule, d: Device, observed: Option<string>, state: string)
    requires ScopeSelector.LifecycleFree(r.appliesTo) && !r.predicate_.StateNotAmong?
    ensures Applies(r, d) == Applies(r, d.(lifecycle := state))
    ensures EvaluateRule(r, d, observed) == EvaluateRule(r, d.(lifecycle := state), observed)
  {
    ScopeSelector.LifecycleIrrelevant(r.appliesTo, FactsOf(d), Some(state));
  }

  lemma {:induction false} RulesIgnoreLifecycle(rules: seq<Rule>, d: Device, state: string)
    requires ReadsNoLifecycle(rules)
    ensures MatchingRules(rules, d) == MatchingRules(rules, d.(lifecycle := state))
  {
    if rules == [] {
    } else {
      RulesIgnoreLifecycle(rules[..|rules| - 1], d, state);
      RuleIgnoresLifecycle(rules[|rules| - 1], d, None, state);
    }
  }

  lemma {:induction false} BlockersIgnoreLifecycle(rules: seq<Rule>, d: Device, observed: Option<string>, state: string)
    requires ReadsNoLifecycle(rules)
    ensures RawBlockers(rules, d, observed) == RawBlockers(rules, d.(lifecycle := state), observed)
  {
    if rules == [] {
    } else {
      BlockersIgnoreLifecycle(rules[..|rules| - 1], d, observed, state);
      RuleIgnoresLifecycle(rules[|rules| - 1], d, observed, state);
    }
  }

  lemma AllBlockersIgnoreLifecycle(env: Env, d: Device, c: ComplianceRow, fits: bool, state: string)
    requires ReadsNoLifecycle(env.rules)
    ensures AllBlockers(env, d, c, fits) == AllBlockers(env, d.(lifecycle := state), c, fits)
    ensures MatchingRules(env.rules, d) == MatchingRules(env.rules, d.(lifecycle := state))
  {
    var rules := MatchingRules(env.rules, d);
    RulesIgnoreLifecycle(env.rules, d, state);
    BlockersIgnoreLifecycle(rules, d, ObservedFirmware(env, d), state);
  }

  lemma NotApplicableListsNothing(env: Env, d: Device)
    ensures Verdict(env, d).Ok? && Verdict(env, d).value.state == NotApplicable ==> Verdict(env, d).value.blockers == []
  {
  }

  lemma RecordingTwice(s: Stored, id: nat, row: Row)
    requires id in s.devices && (row.state == NotApplicable ==> row.blockers == [])
    ensures Recorded(Recorded(s, id, row), id, row) == Recorded(s, id, row)
  {
  }

  /** As many rules apply to both devices, and they raise the same blockers. */
  ghost predicate SameFindings(env: Env, d: Device, e: Device)
    requires d.id in env.compliance
  {
    var c := env.compliance[d.id];
    var fits := ChainFits(env, d, c);
    && |MatchingRules(env.rules, d)| == |MatchingRules(env.rules, e)|
    && SameBlockerLists(SortBlockers(AllBlockers(env, d, c, fits)), SortBlockers(AllBlockers(env, e, c, fits)))
  }

  lemma SameBlockersSameActions(platform: Option<string>, c: ComplianceRow, fits: bool, n: nat, m: nat,
                                xs: seq<Blocker>, ys: seq<Blocker>)
    ensures SameVerdict(RowWith(platform, c, fits, n, xs), RowWith(platform, c, fits, m, ys)) <==>
            n == m && SameBlockerLists(xs, ys)
  {
    if SameBlockerLists(xs, ys) {
      assert forall i :: 0 <= i < |xs| ==> xs[i].severity == ys[i].severity;
      assert HasRequired(xs) <==> HasRequired(ys);
    }
  }

  /** The verdict on the device whose lifecycle the first verdict has moved. */
  lemma VerdictAfterLead(env: Env, d: Device)
    requires FullEvaluation(env, d)
    ensures var row := Verdict(env, d).value; var e := Led(d, row);
            && Verdict(env, e).Ok? && Verdict(env, e).value.state != NotApplicable
            && (SameVerdict(row, Verdict(env, e).value) <==> SameFindings(env, d, e))
  {
    var row, c := Verdict(env, d).value, env.compliance[d.id];
    var e, fits := Led(d, row), ChainFits(env, d, c);
    assert ChainFits(env, e, c) == fits;
    SameBlockersSameActions(d.facts.platform, c, fits, |MatchingRules(env.rules, d)|, |MatchingRules(env.rules, e)|,
                            SortBlockers(AllBlockers(env, d, c, fits)), SortBlockers(AllBlockers(env, e, c, fits)));
  }

  lemma RecordingAgainIff(s: Stored, id: nat, row: Row, again: Row)
    requires id in s.devices && row.state != NotApplicable && again.state != NotApplicable
    requires !Unchanged(HistoryOf(s, id), row)
    ensures var once := Recorded(s, id, row); Recorded(once, id, again) == once <==> SameVerdict(row, again)
  {
  }

  /**
   Evaluating a device again at the same clock with unchanged inputs adds no row, writes no audit and
   leaves the device alone exactly when the first evaluation was silent already, or the rules that
   apply at the lifecycle it left are as many and raise the same blockers. Without a full evaluation,
   carved out or stale, it always does.
  */
  lemma EvaluatingTwiceAddsNothingIff(env: Env, s: Stored, id: nat)
    requires WellKeyed(s) && id in s.devices
    ensures var once, d := Evaluated(env, s, id), s.devices[id];
            if !FullEvaluation(env, d) then Evaluated(env, once, id) == once
            else
              var row := Verdict(env, d).value;
              Evaluated(env, once, id) == once <==>
              Unchanged(HistoryOf(s, id), row) || SameFindings(env, d, Led(d, row))
  {
    var d := s.devices[id];
    if FullEvaluation(env, d) {
      var row := Verdict(env, d).value;
      VerdictAfterLead(env, d);
      EvaluatedIsRecorded(env, s, id);
      if !Unchanged(HistoryOf(s, id), row) {
        var once := Recorded(s, id, row);
        EvaluatedIsRecorded(env, once, id);
        RecordingAgainIff(s, id, row, Verdict(env, Led(d, row)).value);
      }
    } else if Verdict(env, d).Ok? {
      NotApplicableListsNothing(env, d);
      EvaluatedIsRecorded(env, s, id);
      CarvedOutKeepsLifecycle(env, d);
      RecordingTwice(s, id, Verdict(env, d).value);
    }
  }

  lemma CarvedOutKeepsLifecycle(env: Env, d: Device)
    requires !FullEvaluation(env, d) && Verdict(env, d).Ok?
    ensures Led(d, Verdict(env, d).value) == d
  {
  }

  /** With rules that do not read the lifecycle the second evaluation is always silent. */
  lemma EvaluatingTwiceAddsNothing(env: Env, s: Stored, id: nat)
    requires WellKeyed(s) && ReadsNoLifecycle(env.rules)
    ensures var once := Evaluated(env, s, id); Evaluated(env, once, id) == once
  {
    if id in s.devices {
      var d := s.devices[id];
      EvaluatingTwiceAddsNothingIff(env, s, id);
      if FullEvaluation(env, d) {
        var c := env.compliance[d.id];
        var row := Verdict(env, d).value;
        AllBlockersIgnoreLifecycle(env, d, c, ChainFits(env, d, c), LifecycleAfter(d.lifecycle, row));
      }
    }
  }

  // ---- why the restriction is needed ---------------------------------------

  ghost function FlipRule(): Rule {
    Rule(1, "settled", true, true, [], StateNotAmong(["outside_target"]), Required)
  }

  ghost function FlipEnv(): Env {
    Env(0, 30, 1000, 10, [FlipRule()], [], map[0 := ComplianceRow(7, OutsideTarget, Some("2"), Some("2"), 0)], map[],
        map[])
  }

  ghost function FlipDevice(lifecycle: string): Device {
    Device(0, ScopeSelector.Facts(None, Some("iosxr"), None, None, None, None, None, None), lifecycle, None, None, None)
  }

  lemma FlipVerdict(lifecycle: string)
    ensures Verdict(FlipEnv(), FlipDevice(lifecycle)).Ok?
    ensures Verdict(FlipEnv(), FlipDevice(lifecycle)).value.state ==
            if lifecycle == "outside_target" then State.Blocked else State.ReadyForUplift
  {
    var env, d := FlipEnv(), FlipDevice(lifecycle);
    assert UpgradePath.Joins(env.edges, "iosxr", "2", "2", []) && UpgradePath.TotalWeight([]) == 0;
    assert ChainFits(env, d, env.compliance[0]);
    ReadyExactlyWhen(env, d);
    assert Applies(FlipRule(), d);
    assert HardBlocks(FlipRule(), d, ObservedFirmware(env, d)) <==> lifecycle in ["outside_target"];
  }

  lemma RecordingNews(s: Stored, id: nat, row: Row)
    requires id in s.devices && row.state != NotApplicable
    requires HistoryOf(s, id) != [] ==> HistoryOf(s, id)[|HistoryOf(s, id)| - 1].state != row.state
    ensures HistoryOf(Recorded(s, id, row), id) == HistoryOf(s, id) + [row]
    ensures Recorded(s, id, row).devices == s.devices[id := Led(s.devices[id], row)]
  {
  }

  lemma FlipRecords(s: Stored, lifecycle: string, row: Row)
    requires s.devices == map[0 := FlipDevice(lifecycle)]
    requires HistoryOf(s, 0) != [] ==>
               HistoryOf(s, 0)[|HistoryOf(s, 0)| - 1].state == State.Blocked && lifecycle != "outside_target"
    requires row.state == if lifecycle == "outside_target" then State.Blocked else State.ReadyForUplift
    ensures HistoryOf(Recorded(s, 0, row), 0) == HistoryOf(s, 0) + [row]
    ensures Recorded(s, 0, row).devices == map[0 := FlipDevice(LifecycleAfter(lifecycle, row))]
  {
    RecordingNews(s, 0, row);
  }

  lemma EvaluatedIsRecorded(env: Env, s: Stored, id: nat)
    requires id in s.devices && Verdict(env, s.devices[id]).Ok?
    ensures Evaluated(env, s, id) == Recorded(s, id, Verdict(env, s.devices[id]).value)
  {
  }

  lemma FlipStep(env: Env, s: Stored, lifecycle: string) returns (row: Row)
    requires env == FlipEnv() && s.devices == map[0 := FlipDevice(lifecycle)]
    requires HistoryOf(s, 0) != [] ==>
               HistoryOf(s, 0)[|HistoryOf(s, 0)| - 1].state == State.Blocked && lifecycle != "outside_target"
    ensures row.state == if lifecycle == "outside_target" then State.Blocked else State.ReadyForUplift
    ensures Evaluated(env, s, 0) == Recorded(s, 0, row)
  {
    FlipVerdict(lifecycle);
    EvaluatedIsRecorded(env, s, 0);
    row := Verdict(env, s.devices[0]).value;
  }

  /**
   The restriction on rules is needed. A required rule against the state outside_target blocks the
   device, the verdict itself moves the device out of that state, and the next evaluation with the
   very same inputs stores a second row that calls the device ready.
  */
  lemma LifecycleRuleFlipsTheVerdict(env: Env, s: Stored)
    requires env == FlipEnv() && s == Stored(map[0 := FlipDevice("outside_target")], map[], [])
    ensures var once := Evaluated(env, s, 0); var twice := Evaluated(env, once, 0);
            && |HistoryOf(once, 0)| == 1 && HistoryOf(once, 0)[0].state == State.Blocked
            && |HistoryOf(twice, 0)| == 2 && HistoryOf(twice, 0)[1].state == State.ReadyForUplift
  {
    var first := FlipStep(env, s, "outside_target");
    FlipRecords(s, "outside_target", first);
    assert "blocked"[0] != "outside_target"[0];
    var second := FlipStep(env, Recorded(s, 0, first), "blocked");
    FlipRecords(Recorded(s, 0, first), "blocked", second);
  }
}
