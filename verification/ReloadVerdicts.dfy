/**
 What the bounded re-evaluation after a catalog reload lets go stale: exactly when a device that it
 skips keeps its compliance verdict, and exactly when it keeps its readiness verdict.
*/
module ReloadVerdicts {
  import opened Prelude
  import opened CatalogLoader
  import opened CatalogStore
  import opened Prerequisites
  import opened Compliance
  import opened ComplianceTheorems
  import opened CatalogReload
  import opened VerdictComparison
  import opened ReloadPass
  import Readiness
  import ReadinessTheorems
  import ScopeSelector
  import Sorting
  import UpgradePath

  // ---- compliance ----------------------------------------------------------

  /** What a compliance evaluation reads once targets, packages and edges were reloaded. */
  ghost function AfterReload(env: Env, r: Reload<TargetBody>, packages: map<PackageKey, Package>,
                             edges: seq<UpgradePath.EdgeRow>): Env
  {
    env.(targets := r.After(), packages := packages, edges := edges)
  }

  /**
   A device outside the affected set keeps state, drifts, target and versions of its compliance verdict
   exactly when its governor stays and asks for the same version and, if the device is outside its
   target, the reload left the supply of that version as it was: whether an edge reaches it, and
   whether its package is on file. With no touched target over the device the governor just must not
   have been rescoped.
  */
  lemma SkippedDeviceKeepsVerdictIff(env: Env, r: Reload<TargetBody>, d: Device, rules: seq<PrerequisiteRow>,
                                     touchedRules: set<nat>, packages: map<PackageKey, Package>,
                                     edges: seq<UpgradePath.EdgeRow>)
    requires ReloadsTargets(r) && env.targets == r.before
    requires !Affected(d, r.After(), rules, r.TouchedIds(), touchedRules)
    ensures var later, f := AfterReload(env, r, packages, edges), Readiness.FactsOf(d);
            var supplied := AssessIn(env, d).state == Readiness.OutsideTarget ==>
                              SupplyKept(env, later, d, AssessIn(env, d).target.value.body.targetVersion);
            && (Agree(VerdictOf(env, d), VerdictOf(later, d)) <==>
                  GovernorStays(r, d) && WinnerVersion(r.before, f) == WinnerVersion(r.After(), f) && supplied)
            && (r.NothingTouchedOver(d) ==>
                  (Agree(VerdictOf(env, d), VerdictOf(later, d)) <==> GovernorKept(r, d) && supplied))
  {
    VerdictsAgreeIff(env, AfterReload(env, r, packages, edges), d);
    SkippedDeviceKeepsTargetIff(r, d, rules, touchedRules);
    if r.NothingTouchedOver(d) && GovernorKept(r, d) {
      KeptGovernorIsUntouched(r, d);
    }
  }

  lemma KeptGovernorIsUntouched(r: Reload<TargetBody>, d: Device)
    requires ReloadsTargets(r) && r.NothingTouchedOver(d) && GovernorKept(r, d)
    ensures Winner(r.After(), Readiness.FactsOf(d)) == Winner(r.before, Readiness.FactsOf(d))
  {
    var f := Readiness.FactsOf(d);
    TargetKeptIff(r, d);
    GovernorStaysUnlessRescoped(r, d);
    WinnerIsBest(r.before, f);
    WinnerIsBest(r.After(), f);
    if Winner(r.before, f).Some? {
      var w := Winner(r.before, f).value;
      var u := RowSurvives(r, w);
      CoveredUnlessRescoped(r, d, w);
    }
  }

  lemma PackageDriftFlips(env: Env, d: Device, packages: map<PackageKey, Package>)
    requires AssessIn(env, d).state == Readiness.OutsideTarget
    requires var version := AssessIn(env, d).target.value.body.targetVersion;
             Deliverable(env, d, version) != Deliverable(env.(packages := packages), d, version)
    ensures Fires(env, d, PackageDrift) != Fires(env.(packages := packages), d, PackageDrift)
  {
    var fired := FiredSet(env, d);
    var firedLater := FiredSet(env.(packages := packages), d);
    assert PackageDrift in fired <==> PackageDrift !in firedLater;
  }

  /**
   Packages are not part of the scan. If the package of the target version goes off file, or comes on
   file, the package drift of a device outside its target flips; yet a reload that changes only
   packages does not visit the device once it is past the firmware states.
  */
  lemma PackageChangeIsMissed(env: Env, d: Device, packages: map<PackageKey, Package>, rules: seq<PrerequisiteRow>)
    requires AssessIn(env, d).state == Readiness.OutsideTarget && !FirmwareState(d.lifecycle)
    requires var version := AssessIn(env, d).target.value.body.targetVersion;
             Deliverable(env, d, version) != Deliverable(env.(packages := packages), d, version)
    ensures Fires(env, d, PackageDrift) != Fires(env.(packages := packages), d, PackageDrift)
    ensures !Agree(VerdictOf(env, d), VerdictOf(env.(packages := packages), d))
    ensures !Affected(d, env.targets, rules, {}, {})
  {
    PackageDriftFlips(env, d, packages);
    DriftFieldsAgreeIff(env, env.(packages := packages), d);
  }

  lemma {:induction false} MergeKeepsHead(reasons: seq<Reason>)
    requires reasons != []
    ensures Merge([], reasons) != [] && Merge([], reasons)[0] == reasons[0]
  {
    if |reasons| == 1 {
      assert reasons[..0] == [] && Merge([], reasons[..0]) == [];
    } else {
      MergeKeepsHead(reasons[..|reasons| - 1]);
    }
  }

  lemma UnmatchedHead(env: Env, d: Device)
    requires AssessIn(env, d).state == Readiness.Classified
    ensures VerdictOf(env, d).reasons != []
    ensures VerdictOf(env, d).reasons[0].detail ==
            if LiveTargets(env.targets) == [] then NoLiveTargets else NoneMatched(|LiveTargets(env.targets)|)
  {
    var a := AssessIn(env, d);
    StateExactly(env.targets, d, Lookup(env.observed, d.id));
    MergeKeepsHead(a.reasons + ReasonsOf(Findings(env, d, a)));
  }

  /**
   The reasons of a verdict quote more of the catalog than the scan looks at. A device without a
   target is told how many live targets there are, so its stored reasons no longer tell its verdict
   as soon as that number changes, whether or not any of its other fields does.
  */
  lemma UnmatchedReasonGoesStale(env: Env, later: Env, d: Device)
    requires AssessIn(env, d).state == AssessIn(later, d).state == Readiness.Classified
    requires |LiveTargets(env.targets)| != |LiveTargets(later.targets)|
    ensures !Compliance.SameVerdict(VerdictOf(env, d), VerdictOf(later, d))
  {
    UnmatchedHead(env, d);
    UnmatchedHead(later, d);
  }

  // ---- the whole compliance verdict ----------------------------------------

  /** With nothing touched over the device, the ranking afterwards is the one before without the rescoped targets. */
  lemma RankingAfter(r: Reload<TargetBody>, d: Device)
    requires ReloadsTargets(r) && r.NothingTouchedOver(d)
    ensures var f := Readiness.FactsOf(d);
            Ranked(ActiveTargets(r.After()), f) == StillIn(Ranked(ActiveTargets(r.before), f), r.After())
  {
    var f := Readiness.FactsOf(d);
    var ranked := Ranked(ActiveTargets(r.before), f);
    LoadKeepsIdsUnique(r.policy, r.before, r.files, r.next, r.clock);
    RankingExactly(r.before, f);
    RankingIsOrdered(r.before, f);
    StillInOrder(ranked, r.After());
    forall t ensures Eligible(r.After(), f, t) <==> Eligible(r.before, f, t) && t in r.After() {
      EligibleUnlessRescoped(r, d, t);
    }
    RankingIsDetermined(r.After(), f, StillIn(ranked, r.After()));
  }

  lemma EligibleUnlessRescoped(r: Reload<TargetBody>, d: Device, t: Target)
    requires ReloadsTargets(r) && r.NothingTouchedOver(d)
    ensures var f := Readiness.FactsOf(d); Eligible(r.After(), f, t) <==> Eligible(r.before, f, t) && t in r.After()
    ensures Eligible(r.before, Readiness.FactsOf(d), t) ==> (t in r.After() <==> !r.Rewritten(t))
  {
    EligibleAfter(r, d, t);
    if Eligible(r.before, Readiness.FactsOf(d), t) {
      CoveredUnlessRescoped(r, d, t);
    }
  }

  /**
   What the reasons quote of the targets: of a governed device the governor and the first three
   runners-up, none of which may have been rescoped; of another one how many live targets there are,
   and whether a tag was out of reach.
  */
  ghost predicate QuotesKept(r: Reload<TargetBody>, d: Device) {
    var f := Readiness.FactsOf(d);
    var targets, later := ActiveTargets(r.before), ActiveTargets(r.After());
    if Ranked(targets, f) == [] then |targets| == |later| && AnyDefers(targets, f) == AnyDefers(later, f)
    else forall c :: c in Quoted(Ranked(targets, f)) ==> !r.Rewritten(c.target)
  }

  lemma BillKeptIff(r: Reload<TargetBody>, d: Device)
    requires ReloadsTargets(r) && r.NothingTouchedOver(d)
    ensures var f := Readiness.FactsOf(d); BillOf(r.before, f) == BillOf(r.After(), f) <==> QuotesKept(r, d)
  {
    var f := Readiness.FactsOf(d);
    var targets, later := ActiveTargets(r.before), ActiveTargets(r.After());
    var ranked := Ranked(targets, f);
    RankingAfter(r, d);
    RankingExactly(r.before, f);
    if ranked == [] {
      UnmatchedBillsIff(targets, later, f);
    } else {
      NoTargetsNoRanking(targets, f);
      NoTargetsNoRanking(later, f);
      GovernedBillStaysIff(targets, later, ranked, r.After(), AnyDefers(targets, f), AnyDefers(later, f));
      QuotedAreListed(ranked);
      forall c | c in Quoted(ranked) ensures c.target in r.After() <==> !r.Rewritten(c.target) {
        EligibleUnlessRescoped(r, d, c.target);
      }
    }
  }

  lemma NoTargetsNoRanking(targets: seq<Target>, f: ScopeSelector.Facts)
    ensures targets == [] ==> Ranked(targets, f) == []
  {
    assert targets == [] ==> Candidates(targets, f) == [];
  }

  /** If the same row governs, the same bill and the same supply make the same verdict, actions included. */
  lemma SameBillSameVerdict(env: Env, later: Env, d: Device)
    requires later == env.(targets := later.targets, packages := later.packages, edges := later.edges)
    requires var f := Readiness.FactsOf(d);
             Winner(env.targets, f) == Winner(later.targets, f) && BillOf(env.targets, f) == BillOf(later.targets, f)
    requires AssessIn(env, d).state == Readiness.OutsideTarget ==>
               SameSupply(env, later, d, AssessIn(env, d).target.value.body.targetVersion)
    ensures VerdictOf(env, d) == VerdictOf(later, d)
  {
    AssessmentTellsTheBill(env, d);
    AssessmentTellsTheBill(later, d);
    StateExactly(env.targets, d, Lookup(env.observed, d.id));
    StateExactly(later.targets, d, Lookup(env.observed, d.id));
    var a, b := AssessIn(env, d), AssessIn(later, d);
    assert a == b;
    SameBillSameFindings(env, later, d, a, b, BillOf(env.targets, Readiness.FactsOf(d)));
  }

  /** The supply of the target version is as it was, should the device be outside its target. */
  ghost predicate Supplied(env: Env, later: Env, d: Device) {
    AssessIn(env, d).state == Readiness.OutsideTarget ==>
      SameSupply(env, later, d, AssessIn(env, d).target.value.body.targetVersion)
  }

  lemma WholeVerdictKeptIff(env: Env, r: Reload<TargetBody>, d: Device, later: Env)
    requires ReloadsTargets(r) && env.targets == r.before
    requires later == env.(targets := r.After(), packages := later.packages, edges := later.edges)
    ensures var f, v, w := Readiness.FactsOf(d), VerdictOf(env, d), VerdictOf(later, d);
            Compliance.SameVerdict(v, w) <==>
            BillOf(r.before, f) == BillOf(r.After(), f) && Supplied(env, later, d) && SameActions(v, w)
  {
    LoadKeepsIdsUnique(r.policy, r.before, r.files, r.next, r.clock);
    VerdictsSayTheSameIff(env, later, d, d);
    AssessmentTellsTheBill(env, d);
  }

  lemma QuotesNameTheGovernor(r: Reload<TargetBody>, d: Device)
    requires QuotesKept(r, d)
    ensures GovernorKept(r, d)
  {
    var ranked := Ranked(ActiveTargets(r.before), Readiness.FactsOf(d));
    assert ranked != [] ==> Quoted(ranked)[0] == ranked[0] && ranked[0] in Quoted(ranked);
  }

  lemma KeptQuotesKeepTheVerdict(env: Env, r: Reload<TargetBody>, d: Device, later: Env)
    requires ReloadsTargets(r) && env.targets == r.before && r.NothingTouchedOver(d)
    requires later == env.(targets := r.After(), packages := later.packages, edges := later.edges)
    requires QuotesKept(r, d) && Supplied(env, later, d)
    ensures VerdictOf(env, d) == VerdictOf(later, d)
  {
    BillKeptIff(r, d);
    QuotesNameTheGovernor(r, d);
    KeptGovernorIsUntouched(r, d);
    SameBillSameVerdict(env, later, d);
  }

  /**
   The whole verdict, reasons and actions included, of a device outside the affected set. It says the
   same after the reload exactly when the targets give the same bill, the supply of the target version
   is the same if the device is outside its target, and the builders recommend the same actions. With
   no touched target over the device it takes only that nothing the reasons quote was rescoped, or
   without a governor that the count and the deferral are as they were; the actions then follow.
  */
  lemma SkippedDeviceKeepsWholeVerdictIff(env: Env, r: Reload<TargetBody>, d: Device, rules: seq<PrerequisiteRow>,
                                          touchedRules: set<nat>, packages: map<PackageKey, Package>,
                                          edges: seq<UpgradePath.EdgeRow>)
    requires ReloadsTargets(r) && env.targets == r.before
    requires !Affected(d, r.After(), rules, r.TouchedIds(), touchedRules)
    ensures var later, f := AfterReload(env, r, packages, edges), Readiness.FactsOf(d);
            var v, w := VerdictOf(env, d), VerdictOf(later, d);
            && (Compliance.SameVerdict(v, w) <==>
                  BillOf(r.before, f) == BillOf(r.After(), f) && Supplied(env, later, d) && SameActions(v, w))
            && (r.NothingTouchedOver(d) ==>
                  (Compliance.SameVerdict(v, w) <==> QuotesKept(r, d) && Supplied(env, later, d)))
    ensures forall t :: r.TouchedOver(t, d) ==> !ScopeSelector.TagFree(r.scopeOf(t.body))
  {
    var later := AfterReload(env, r, packages, edges);
    WholeVerdictKeptIff(env, r, d, later);
    if r.NothingTouchedOver(d) {
      BillKeptIff(r, d);
      if QuotesKept(r, d) && Supplied(env, later, d) {
        KeptQuotesKeepTheVerdict(env, r, d, later);
      }
    }
    SkippedDeviceKeepsTargetIff(r, d, rules, touchedRules);
  }

  // ---- what is stored when the reload is over ------------------------------

  /** A history that repeats one verdict repeats another one exactly when the two say the same. */
  lemma RepeatsBothIff(history: seq<VerdictRow>, row: VerdictRow, other: VerdictRow)
    requires Repeats(history, row)
    ensures Repeats(history, other) <==> Compliance.SameVerdict(row, other)
  {
    SameVerdictIsEquivalence(history[|history| - 1], row, other);
  }

  /**
   A reload as a whole: new catalog, scan, and the pass over the affected devices. A device whose
   stored verdict was up to date before has one that is up to date afterwards if the scan found it, as
   of its assessed lifecycle; and if the scan passed it over, exactly when the whole verdict survives
   the new catalog.
  */
  lemma StoredVerdictAfterReload(env: Env, r: Reload<TargetBody>, later: Env, rules: seq<PrerequisiteRow>,
                                 touchedRules: set<nat>, base: Readiness.Env, start: Tables, t: Tables,
                                 affected: set<nat>, id: nat)
    requires ReloadsTargets(r) && env.targets == r.before
    requires later == env.(targets := r.After(), packages := later.packages, edges := later.edges)
    requires Passed(later, base, start, t, affected) && id in start.compliance.devices
    requires var d := start.compliance.devices[id];
             && (id in affected <==> Affected(d, r.After(), rules, r.TouchedIds(), touchedRules))
             && Repeats(HistoryOf(start.compliance, id), VerdictOf(env, d))
    ensures var d, after := start.compliance.devices[id], t.compliance;
            var f := Readiness.FactsOf(d);
            && id in after.devices
            && if id in affected then Repeats(HistoryOf(after, id), VerdictOf(later, Settle(later, d)))
               else
                 && after.devices[id] == d
                 && (Repeats(HistoryOf(after, id), VerdictOf(later, d)) <==>
                       && BillOf(r.before, f) == BillOf(r.After(), f) && Supplied(env, later, d)
                       && SameActions(VerdictOf(env, d), VerdictOf(later, d)))
  {
    var d := start.compliance.devices[id];
    assert Through(later, base, start, t, affected, id);
    if id in affected {
      VisitTellsTheTruth(later, base, ViewOf(start, id));
    } else {
      WholeVerdictKeptIff(env, r, d, later);
      RepeatsBothIff(HistoryOf(start.compliance, id), VerdictOf(env, d), VerdictOf(later, d));
    }
  }

  // ---- readiness -----------------------------------------------------------

  /** A catalog row as the readiness controller reads it. */
  function RuleOf(row: PrerequisiteRow, read: string -> Predicate): Rule {
    Rule(row.id, row.key, row.live, row.body.evaluable, row.body.appliesTo, read(row.body.predicateText),
         if row.body.severity == "required" then Required else Recommended)
  }

  function RulesOf(rows: seq<PrerequisiteRow>, read: string -> Predicate): (r: seq<Rule>)
    ensures |r| == |rows|
    ensures forall i :: 0 <= i < |r| ==> r[i] == RuleOf(rows[i], read)
  {
    seq(|rows|, i requires 0 <= i < |rows| => RuleOf(rows[i], read))
  }

  lemma MatchingRulesAreRulesFor(rows: seq<PrerequisiteRow>, read: string -> Predicate, d: Device)
    ensures forall t :: t in RulesFor(rows, d) ==> RuleOf(t, read) in Readiness.MatchingRules(RulesOf(rows, read), d)
    ensures forall x :: x in Readiness.MatchingRules(RulesOf(rows, read), d) ==>
              exists t :: t in RulesFor(rows, d) && x == RuleOf(t, read)
  {
    var rules := RulesOf(rows, read);
    forall t | t in RulesFor(rows, d) ensures RuleOf(t, read) in Readiness.MatchingRules(rules, d) {
      var i :| 0 <= i < |rows| && rows[i] == t;
      assert rules[i] == RuleOf(t, read);
    }
    forall x | x in Readiness.MatchingRules(rules, d)
      ensures exists t :: t in RulesFor(rows, d) && x == RuleOf(t, read)
    {
      var i :| 0 <= i < |rules| && rules[i] == x;
      assert rows[i] in RulesFor(rows, d);
    }
  }

  lemma MatchingDistinct(rows: seq<PrerequisiteRow>, read: string -> Predicate, d: Device)
    requires IdsUnique(rows)
    ensures DistinctIds(Readiness.MatchingRules(RulesOf(rows, read), d))
    ensures Distinct(Readiness.MatchingRules(RulesOf(rows, read), d))
  {
    ReadinessTheorems.MatchingRulesDistinct(RulesOf(rows, read), d);
    ReadinessTheorems.DistinctIdsAreDistinct(Readiness.MatchingRules(RulesOf(rows, read), d));
  }

  /** What a readiness evaluation reads once prerequisites and edges were reloaded. */
  ghost function ReadyEnv(env: Readiness.Env, r: Reload<PrerequisiteBody>, read: string -> Predicate,
                          edges: seq<UpgradePath.EdgeRow>): Readiness.Env
  {
    env.(rules := RulesOf(r.After(), read), edges := edges)
  }

  /** The rules with one of these ids, or with none of them. */
  ghost function Among(rules: seq<Rule>, ids: set<nat>, inside: bool): (r: seq<Rule>)
    ensures forall x :: x in r <==> x in rules && (x.id in ids <==> inside)
    ensures |r| <= |rules|
  {
    if rules == [] then []
    else
      var most, last := Among(rules[..|rules| - 1], ids, inside), rules[|rules| - 1];
      assert rules == rules[..|rules| - 1] + [last];
      if last.id in ids <==> inside then most + [last] else most
  }

  lemma {:induction false} AmongDistinct(rules: seq<Rule>, ids: set<nat>, inside: bool)
    requires DistinctIds(rules)
    ensures DistinctIds(Among(rules, ids, inside))
  {
    if rules == [] {
    } else {
      var most, last := rules[..|rules| - 1], rules[|rules| - 1];
      AmongDistinct(most, ids, inside);
      forall x | x in Among(most, ids, inside) ensures x.id != last.id {
        assert x in most;
      }
    }
  }

  /** Splitting the rules splits the blockers they raise. */
  lemma {:induction false} SplitBlockers(rules: seq<Rule>, ids: set<nat>, d: Device, observed: Option<string>)
    ensures |rules| == |Among(rules, ids, true)| + |Among(rules, ids, false)|
    ensures multiset(RawBlockers(rules, d, observed)) ==
            multiset(RawBlockers(Among(rules, ids, true), d, observed)) +
            multiset(RawBlockers(Among(rules, ids, false), d, observed))
  {
    if rules == [] {
    } else {
      var most, last := rules[..|rules| - 1], rules[|rules| - 1];
      assert rules == most + [last];
      AmongSnoc(most, last, ids, true);
      AmongSnoc(most, last, ids, false);
      SplitBlockers(most, ids, d, observed);
      SplitOneMore(Among(most, ids, true), Among(most, ids, false), most, last, last.id in ids, d, observed);
    }
  }

  lemma AmongSnoc(most: seq<Rule>, last: Rule, ids: set<nat>, inside: bool)
    ensures Among(most + [last], ids, inside) ==
            if last.id in ids <==> inside then Among(most, ids, inside) + [last] else Among(most, ids, inside)
  {
    assert (most + [last])[..|most|] == most;
  }

  lemma SplitOneMore(inner: seq<Rule>, outer: seq<Rule>, most: seq<Rule>, last: Rule, inside: bool, d: Device,
                     observed: Option<string>)
    requires multiset(RawBlockers(most, d, observed)) ==
             multiset(RawBlockers(inner, d, observed)) + multiset(RawBlockers(outer, d, observed))
    ensures multiset(RawBlockers(most + [last], d, observed)) ==
            multiset(RawBlockers(if inside then inner + [last] else inner, d, observed)) +
            multiset(RawBlockers(if inside then outer else outer + [last], d, observed))
  {
    RawBlockersSnoc(inner, last, d, observed);
    RawBlockersSnoc(outer, last, d, observed);
    RawBlockersSnoc(most, last, d, observed);
  }

  lemma RawBlockersSnoc(rules: seq<Rule>, x: Rule, d: Device, observed: Option<string>)
    ensures RawBlockers(rules + [x], d, observed) ==
            RawBlockers(rules, d, observed) +
            (if EvaluateRule(x, d, observed).Some? then [EvaluateRule(x, d, observed).value] else [])
  {
    assert (rules + [x])[..|rules|] == rules;
  }

  /** Sorted blocker lists are equal exactly when the rules raised the same blockers. */
  lemma SortedAlikeIff(a: seq<Rule>, b: seq<Rule>, d: Device, observed: Option<string>, synthetic: seq<Blocker>)
    requires DistinctIds(a) && |synthetic| <= 1 && (synthetic != [] ==> synthetic[0].ruleId == None)
    ensures var p, q := RawBlockers(a, d, observed), RawBlockers(b, d, observed);
            SortBlockers(p + synthetic) == SortBlockers(q + synthetic) <==> multiset(p) == multiset(q)
  {
    var p, q := RawBlockers(a, d, observed), RawBlockers(b, d, observed);
    assert UntiedList(p + synthetic) by {
      BeforeIsOrder();
      forall x, y | x in p + synthetic && y in p + synthetic && Before(x, y) && Before(y, x) ensures x == y {
        NoTies(a, d, observed, synthetic, x, y);
      }
    }
    SameSortIff(p + synthetic, q + synthetic);
    SameWithTail(p, q, synthetic);
  }

  ghost predicate UntiedList(x: seq<Blocker>) {
    forall p, q :: p in x && q in x && Before(p, q) && Before(q, p) ==> p == q
  }

  lemma SameSortIff(x: seq<Blocker>, y: seq<Blocker>)
    requires UntiedList(x)
    ensures SortBlockers(x) == SortBlockers(y) <==> multiset(x) == multiset(y)
  {
    Sorting.SortPermutes(x, Before);
    Sorting.SortPermutes(y, Before);
    if multiset(x) == multiset(y) {
      BeforeIsOrder();
      Sorting.SortIgnoresOrder(x, y, Before);
    }
  }

  lemma SameWithTail<T>(p: seq<T>, q: seq<T>, tail: seq<T>)
    ensures multiset(p + tail) == multiset(q + tail) <==> multiset(p) == multiset(q)
  {
    assert multiset(p) == multiset(p + tail) - multiset(tail);
    assert multiset(q) == multiset(q + tail) - multiset(tail);
  }

  /** What two rule lists with the same rules outside `ids` have to share within. */
  ghost predicate RaiseTheSame(a: seq<Rule>, b: seq<Rule>, ids: set<nat>, d: Device, observed: Option<string>) {
    var x, y := Among(a, ids, true), Among(b, ids, true);
    |x| == |y| && multiset(RawBlockers(x, d, observed)) == multiset(RawBlockers(y, d, observed))
  }

  lemma RaisedAlikeIff(a: seq<Rule>, b: seq<Rule>, ids: set<nat>, d: Device, observed: Option<string>,
                       synthetic: seq<Blocker>)
    requires DistinctIds(a) && DistinctIds(b)
    requires multiset(Among(a, ids, false)) == multiset(Among(b, ids, false))
    requires |synthetic| <= 1 && (synthetic != [] ==> synthetic[0].ruleId == None)
    ensures |a| == |b| && SortBlockers(RawBlockers(a, d, observed) + synthetic) ==
                          SortBlockers(RawBlockers(b, d, observed) + synthetic) <==>
            RaiseTheSame(a, b, ids, d, observed)
  {
    SortedAlikeIff(a, b, d, observed, synthetic);
    SplitAlikeIff(a, b, ids, d, observed);
  }

  lemma SplitAlikeIff(a: seq<Rule>, b: seq<Rule>, ids: set<nat>, d: Device, observed: Option<string>)
    requires DistinctIds(a) && multiset(Among(a, ids, false)) == multiset(Among(b, ids, false))
    ensures |a| == |b| && multiset(RawBlockers(a, d, observed)) == multiset(RawBlockers(b, d, observed)) <==>
            RaiseTheSame(a, b, ids, d, observed)
  {
    SplitBlockers(a, ids, d, observed);
    SplitBlockers(b, ids, d, observed);
    Sorting.SameLength(Among(a, ids, false), Among(b, ids, false));
    AmongDistinct(a, ids, false);
    SameBlockers(Among(a, ids, false), Among(b, ids, false), d, observed);
    SameSummand(multiset(RawBlockers(Among(a, ids, true), d, observed)),
                multiset(RawBlockers(Among(b, ids, true), d, observed)),
                multiset(RawBlockers(Among(a, ids, false), d, observed)));
  }

  lemma SameSummand<T>(p: multiset<T>, q: multiset<T>, rest: multiset<T>)
    ensures p + rest == q + rest <==> p == q
  {
    assert p == p + rest - rest && q == q + rest - rest;
  }

  lemma RowsAgreeIff(env: Readiness.Env, later: Readiness.Env, d: Device, ids: set<nat>)
    requires ReadinessTheorems.FullEvaluation(env, d)
    requires later == env.(rules := later.rules, edges := later.edges)
    requires var a, b := Readiness.MatchingRules(env.rules, d), Readiness.MatchingRules(later.rules, d);
             && DistinctIds(a) && DistinctIds(b) && multiset(Among(a, ids, false)) == multiset(Among(b, ids, false))
    ensures var c := env.compliance[d.id];
            var a, b := Readiness.MatchingRules(env.rules, d), Readiness.MatchingRules(later.rules, d);
            Readiness.Verdict(later, d) == Readiness.Verdict(env, d) <==>
            && RaiseTheSame(a, b, ids, d, Readiness.ObservedFirmware(env, d))
            && Readiness.ChainFits(later, d, c) == Readiness.ChainFits(env, d, c)
  {
    var c := env.compliance[d.id];
    var fits, fitsLater := Readiness.ChainFits(env, d, c), Readiness.ChainFits(later, d, c);
    FullVerdict(env, d, fits);
    FullVerdict(later, d, fitsLater);
    FullRowsAgreeIff(d.facts.platform, c, fits, fitsLater, Readiness.MatchingRules(env.rules, d),
                     Readiness.MatchingRules(later.rules, d), ids, d, Readiness.ObservedFirmware(env, d),
                     Readiness.Synthetic(env, d, c, fits), Readiness.Synthetic(later, d, c, fitsLater));
  }

  lemma FullRowsAgreeIff(platform: Option<string>, c: Readiness.ComplianceRow, f: bool, g: bool, a: seq<Rule>,
                         b: seq<Rule>, ids: set<nat>, d: Device, observed: Option<string>, p: seq<Blocker>,
                         q: seq<Blocker>)
    requires DistinctIds(a) && DistinctIds(b) && multiset(Among(a, ids, false)) == multiset(Among(b, ids, false))
    requires |p| <= 1 && (p != [] ==> p[0].ruleId == None) && (f == g ==> p == q)
    ensures Readiness.RowWith(platform, c, f, |a|, SortBlockers(RawBlockers(a, d, observed) + p)) ==
            Readiness.RowWith(platform, c, g, |b|, SortBlockers(RawBlockers(b, d, observed) + q)) <==>
            f == g && RaiseTheSame(a, b, ids, d, observed)
  {
    SameRowsIff(platform, c, f, g, |a|, |b|, SortBlockers(RawBlockers(a, d, observed) + p),
                SortBlockers(RawBlockers(b, d, observed) + q));
    RaisedAlikeIff(a, b, ids, d, observed, p);
  }

  lemma SameRowsIff(platform: Option<string>, c: Readiness.ComplianceRow, f: bool, g: bool, n: nat, m: nat,
                    xs: seq<Blocker>, ys: seq<Blocker>)
    ensures Readiness.RowWith(platform, c, f, n, xs) == Readiness.RowWith(platform, c, g, m, ys) <==>
            f == g && n == m && xs == ys
  {
  }

  lemma FullVerdict(env: Readiness.Env, d: Device, fits: bool)
    requires ReadinessTheorems.FullEvaluation(env, d) && fits == Readiness.ChainFits(env, d, env.compliance[d.id])
    ensures var c := env.compliance[d.id];
            Readiness.Verdict(env, d) ==
            Ok(Readiness.RowWith(d.facts.platform, c, fits, |Readiness.MatchingRules(env.rules, d)|,
                                 SortBlockers(RawBlockers(Readiness.MatchingRules(env.rules, d), d,
                                                          Readiness.ObservedFirmware(env, d)) +
                                              Readiness.Synthetic(env, d, c, fits))))
  {
  }

  /** The rules of the table that apply to the device. */
  function Applying(rows: seq<PrerequisiteRow>, read: string -> Predicate, d: Device): seq<Rule> {
    Readiness.MatchingRules(RulesOf(rows, read), d)
  }

  /** Outside the touched ones the same rules apply before and after. */
  lemma UntouchedRulesStay(r: Reload<PrerequisiteBody>, read: string -> Predicate, d: Device)
    requires r.Ok() && r.scopeOf == RuleScope
    ensures var a, b := Applying(r.before, read, d), Applying(r.After(), read, d);
            && DistinctIds(a) && DistinctIds(b)
            && multiset(Among(a, r.TouchedIds(), false)) == multiset(Among(b, r.TouchedIds(), false))
  {
    var a, b, ids := Applying(r.before, read, d), Applying(r.After(), read, d), r.TouchedIds();
    LoadKeepsIdsUnique(r.policy, r.before, r.files, r.next, r.clock);
    MatchingDistinct(r.before, read, d);
    MatchingDistinct(r.After(), read, d);
    MatchingRulesAreRulesFor(r.before, read, d);
    MatchingRulesAreRulesFor(r.After(), read, d);
    AmongDistinct(a, ids, false);
    AmongDistinct(b, ids, false);
    forall x | x in a && x.id !in ids ensures x in b {
      var t :| t in RulesFor(r.before, d) && x == RuleOf(t, read);
      RulesAfter(r, d, t);
    }
    forall x | x in b && x.id !in ids ensures x in a {
      var t :| t in RulesFor(r.After(), d) && x == RuleOf(t, read);
      RulesAfter(r, d, t);
    }
    ReadinessTheorems.DistinctIdsAreDistinct(Among(a, ids, false));
    ReadinessTheorems.DistinctIdsAreDistinct(Among(b, ids, false));
    DistinctPermutation(Among(a, ids, false), Among(b, ids, false));
  }

  /** With nothing touched over the device, only its own rescoped rules are at stake. */
  lemma NothingTouchedNothingRaised(r: Reload<PrerequisiteBody>, read: string -> Predicate, d: Device,
                                    observed: Option<string>)
    requires r.Ok() && r.scopeOf == RuleScope && r.NothingTouchedOver(d)
    ensures RaiseTheSame(Applying(r.before, read, d), Applying(r.After(), read, d), r.TouchedIds(), d, observed) <==>
            forall t :: t in RulesFor(r.before, d) ==> !r.Rewritten(t)
  {
    var a, b, ids := Applying(r.before, read, d), Applying(r.After(), read, d), r.TouchedIds();
    MatchingRulesAreRulesFor(r.before, read, d);
    MatchingRulesAreRulesFor(r.After(), read, d);
    forall x | x in b ensures x.id !in ids {
      var t :| t in RulesFor(r.After(), d) && x == RuleOf(t, read);
      assert !r.TouchedOver(t, d);
    }
    NoneAmong(b, ids);
    forall t | t in RulesFor(r.before, d) ensures t.id !in ids <==> !r.Rewritten(t) {
      CoveredUnlessRescoped(r, d, t);
    }
    if t :| t in RulesFor(r.before, d) && r.Rewritten(t) {
      assert RuleOf(t, read) in Among(a, ids, true);
    } else {
      NoneAmong(a, ids);
    }
  }

  lemma NoneAmong(rules: seq<Rule>, ids: set<nat>)
    requires forall x :: x in rules ==> x.id !in ids
    ensures Among(rules, ids, true) == []
  {
    EmptyOrNot(Among(rules, ids, true));
  }

  lemma EmptyOrNot<T>(s: seq<T>)
    ensures s == [] || exists x :: x in s
  {
    if s != [] {
      assert s[0] in s;
    }
  }

  /**
   A device outside the affected set keeps its whole readiness verdict, blockers and actions included,
   exactly when the touched rules that apply to it before and after are as many and raise the same
   blockers, and the reload did not change whether a chain of edges fits. With no touched rule over the
   device, its own rules just must not have been rescoped. Without a full evaluation the catalog does
   not matter at all.
  */
  lemma SkippedDeviceKeepsReadinessIff(env: Readiness.Env, r: Reload<PrerequisiteBody>, read: string -> Predicate,
                                       d: Device, targets: seq<Target>, touchedTargets: set<nat>,
                                       edges: seq<UpgradePath.EdgeRow>)
    requires r.Ok() && r.scopeOf == RuleScope && env.rules == RulesOf(r.before, read)
    requires !Affected(d, targets, r.After(), touchedTargets, r.TouchedIds())
    ensures var later := ReadyEnv(env, r, read, edges);
            if !ReadinessTheorems.FullEvaluation(env, d) then Readiness.Verdict(later, d) == Readiness.Verdict(env, d)
            else
              var c, observed := env.compliance[d.id], Readiness.ObservedFirmware(env, d);
              var a, b := Applying(r.before, read, d), Applying(r.After(), read, d);
              var fits := Readiness.ChainFits(later, d, c) == Readiness.ChainFits(env, d, c);
              && (Readiness.Verdict(later, d) == Readiness.Verdict(env, d) <==>
                    fits && RaiseTheSame(a, b, r.TouchedIds(), d, observed))
              && (r.NothingTouchedOver(d) ==>
                    (Readiness.Verdict(later, d) == Readiness.Verdict(env, d) <==>
                     fits && forall t :: t in RulesFor(r.before, d) ==> !r.Rewritten(t)))
    ensures forall t :: r.TouchedOver(t, d) ==> !ScopeSelector.TagFree(r.scopeOf(t.body))
  {
    if ReadinessTheorems.FullEvaluation(env, d) {
      UntouchedRulesStay(r, read, d);
      RowsAgreeIff(env, ReadyEnv(env, r, read, edges), d, r.TouchedIds());
      if r.NothingTouchedOver(d) {
        NothingTouchedNothingRaised(r, read, d, Readiness.ObservedFirmware(env, d));
      }
    }
    SkippedDeviceKeepsRulesIff(r, d, targets, touchedTargets);
  }

  /** An untouched rule stops the device, before and after alike. */
  ghost predicate UntouchedRuleStops(env: Readiness.Env, r: Reload<PrerequisiteBody>, read: string -> Predicate,
                                     d: Device)
  {
    exists t :: t in RulesFor(r.before, d) && t.id !in r.TouchedIds() &&
                HardBlocks(RuleOf(t, read), d, Readiness.ObservedFirmware(env, d))
  }

  /** A touched rule stops the device after the reload. */
  ghost predicate TouchedRuleStops(env: Readiness.Env, r: Reload<PrerequisiteBody>, read: string -> Predicate,
                                   d: Device)
  {
    exists t :: t in RulesFor(r.After(), d) && t.id in r.TouchedIds() &&
                HardBlocks(RuleOf(t, read), d, Readiness.ObservedFirmware(env, d))
  }

  lemma StopsExactly(env: Readiness.Env, rows: seq<PrerequisiteRow>, read: string -> Predicate, d: Device)
    requires env.rules == RulesOf(rows, read)
    ensures ReadinessTheorems.RuleStops(env, d) <==>
            exists t :: t in RulesFor(rows, d) && HardBlocks(RuleOf(t, read), d, Readiness.ObservedFirmware(env, d))
  {
    MatchingRulesAreRulesFor(rows, read, d);
    assert forall x :: x in Readiness.MatchingRules(env.rules, d) <==> x in env.rules && Readiness.Applies(x, d);
  }

  lemma StopsAfter(env: Readiness.Env, r: Reload<PrerequisiteBody>, read: string -> Predicate, d: Device,
                   edges: seq<UpgradePath.EdgeRow>)
    requires r.Ok() && r.scopeOf == RuleScope && env.rules == RulesOf(r.before, read)
    ensures ReadinessTheorems.RuleStops(ReadyEnv(env, r, read, edges), d) <==>
            UntouchedRuleStops(env, r, read, d) || TouchedRuleStops(env, r, read, d)
    ensures UntouchedRuleStops(env, r, read, d) ==> ReadinessTheorems.RuleStops(env, d)
  {
    StopsExactly(env, r.before, read, d);
    StopsExactly(ReadyEnv(env, r, read, edges), r.After(), read, d);
    forall t ensures t in RulesFor(r.After(), d) && t.id !in r.TouchedIds() <==>
                     t in RulesFor(r.before, d) && t.id !in r.TouchedIds()
    {
      RulesAfter(r, d, t);
    }
  }

  /**
   The readiness state alone survives more. It is kept exactly when an untouched rule stops the device
   anyway, or the device was held up before the reload just when a touched rule or a missing chain
   holds it up after; and a touched rule applies to a skipped device only through a tag.
  */
  lemma SkippedDeviceKeepsStateIff(env: Readiness.Env, r: Reload<PrerequisiteBody>, read: string -> Predicate,
                                   d: Device, targets: seq<Target>, touchedTargets: set<nat>,
                                   edges: seq<UpgradePath.EdgeRow>)
    requires r.Ok() && r.scopeOf == RuleScope && env.rules == RulesOf(r.before, read)
    requires !Affected(d, targets, r.After(), touchedTargets, r.TouchedIds())
    requires ReadinessTheorems.FullEvaluation(env, d)
    ensures var later := ReadyEnv(env, r, read, edges);
            && Readiness.Verdict(env, d).Ok? && Readiness.Verdict(later, d).Ok?
            && (Readiness.Verdict(later, d).value.state == Readiness.Verdict(env, d).value.state <==>
                  UntouchedRuleStops(env, r, read, d) ||
                  ((ReadinessTheorems.RuleStops(env, d) || ReadinessTheorems.ChainMissing(env, d)) <==>
                     (TouchedRuleStops(env, r, read, d) || ReadinessTheorems.ChainMissing(later, d))))
    ensures forall t :: r.TouchedOver(t, d) ==> !ScopeSelector.TagFree(r.scopeOf(t.body))
  {
    StopsAfter(env, r, read, d, edges);
    ReadinessTheorems.ReadyExactlyWhen(env, d);
    ReadinessTheorems.ReadyExactlyWhen(ReadyEnv(env, r, read, edges), d);
    SkippedDeviceKeepsRulesIff(r, d, targets, touchedTargets);
  }

  /**
   Upgrade edges are not part of the scan either. If other edges leave a ready device without a
   fitting chain, it is blocked, and nothing makes a reload of edges visit it.
  */
  lemma EdgeChangeIsMissed(env: Readiness.Env, d: Device, edges: seq<UpgradePath.EdgeRow>, targets: seq<Target>,
                           rules: seq<PrerequisiteRow>)
    requires ReadinessTheorems.FullEvaluation(env, d) && d.lifecycle == "ready_for_uplift"
    requires Readiness.Verdict(env, d).value.state == Readiness.ReadyForUplift
    requires ReadinessTheorems.ChainMissing(env.(edges := edges), d)
    ensures Readiness.Verdict(env.(edges := edges), d).value.state == Readiness.Blocked
    ensures !Affected(d, targets, rules, {}, {})
  {
    ReadinessTheorems.ReadyExactlyWhen(env, d);
    ReadinessTheorems.ReadyExactlyWhen(env.(edges := edges), d);
    assert d.lifecycle[0] == 'r';
  }
}
