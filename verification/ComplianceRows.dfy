/** What a compliance verdict says, read off the tables: the order of drifts, each reason with its text, and the row. */
module ComplianceRows {
  import opened Prelude
  import opened Sorting
  import opened CatalogLoader
  import opened CatalogStore
  import opened Prerequisites
  import opened Compliance
  import opened ComplianceTheorems
  import Readiness
  import ScopeSelector
  import UpgradePath

  // ---- the assessment ------------------------------------------------------

  /** The live targets that match the device, best first, each once. */
  ghost predicate RanksMatches(rows: seq<Target>, d: Device, ranked: seq<Candidate>) {
    && (forall c :: c in ranked <==>
          && c.target in rows && c.target.live && ScopeSelector.Matches(c.target.body.scope, Readiness.FactsOf(d))
          && c.specificity == ScopeSelector.Specificity(c.target.body.scope))
    && forall i, j :: 0 <= i < j < |ranked| ==> ranked[i].specificity >= ranked[j].specificity
  }

  lemma RankingRanksMatches(rows: seq<Target>, d: Device)
    ensures RanksMatches(rows, d, Ranked(ActiveTargets(rows), Readiness.FactsOf(d)))
  {
    var f := Readiness.FactsOf(d);
    TargetsAreOrdered(rows);
    CandidatesExactly(ActiveTargets(rows), f);
    MoreSpecificIsOrder();
    SortPermutes(Candidates(ActiveTargets(rows), f), MoreSpecificFirst);
    SortSorts(Candidates(ActiveTargets(rows), f), MoreSpecificFirst);
    var ranked := Ranked(ActiveTargets(rows), f);
    assert forall i, j :: 0 <= i < j < |ranked| ==> MoreSpecificFirst(ranked[i], ranked[j]);
  }

  /** The reasons of a device under a target: the match, at most three runners-up, and how its version compares. */
  ghost predicate TellsMatch(reasons: seq<Reason>, ranked: seq<Candidate>, observed: Option<string>)
    requires ranked != []
  {
    var w := ranked[0];
    var others := if |ranked| > 4 then 3 else |ranked| - 1;
    && |reasons| == others + 2
    && reasons[0] == Reason(TargetMatched, Some(w.target.id), None,
                            MatchedWith(w.target.key, w.specificity, w.target.loadedAt))
    && (forall i :: 1 <= i <= others ==>
          reasons[i] == Reason(TargetRunnerUp, Some(ranked[i].target.id), None,
                               AlsoMatched(ranked[i].target.key, ranked[i].specificity)))
    && reasons[others + 1] == match observed
                              case None => Reason(MissingObservation, None, None, NoFirmwareOnFile)
                              case Some(v) =>
                                if v == w.target.body.targetVersion
                                then Reason(VersionMatch, None, None, SameVersion(v))
                                else Reason(VersionMismatch, None, None, OtherVersion(v, w.target.body.targetVersion))
  }

  lemma MatchedTells(ranked: seq<Candidate>, observed: Option<string>)
    requires ranked != []
    ensures TellsMatch(Matched(ranked[0], ranked[1..], observed).reasons, ranked, observed)
  {
    var others := ranked[1..];
    var told := if |others| <= RUNNERS_UP_REPORTED then others else others[..RUNNERS_UP_REPORTED];
    var reasons := Matched(ranked[0], others, observed).reasons;
    assert |RunnersUpReasons(told)| == |told|;
    forall i | 1 <= i <= |told| ensures reasons[i] == RunnersUpReasons(told)[i - 1] && told[i - 1] == ranked[i] {
    }
  }

  /**
   The reasons of an assessment: an empty catalog, or no match among so many live targets and whether a
   tag was out of reach, or the match.
  */
  lemma AssessmentTells(rows: seq<Target>, d: Device, observed: Option<string>)
    ensures var f, a, ranked := Readiness.FactsOf(d), Assess(rows, d, observed),
                                Ranked(ActiveTargets(rows), Readiness.FactsOf(d));
            && (ranked == [] <==> forall t :: t in rows && t.live ==> !ScopeSelector.Matches(t.body.scope, f))
            && if ranked != [] then a.target == Some(ranked[0].target) && TellsMatch(a.reasons, ranked, observed)
               else if forall t :: t in rows ==> !t.live then
                 a.target == None && a.reasons == [Reason(EmptyCatalog, None, None, NoLiveTargets)]
               else
                 && a.target == None
                 && a.reasons == [Reason(NoTargetMatched, None, None, NoneMatched(|LiveTargets(rows)|))] +
                                 (if exists t :: t in rows && t.live && ScopeSelector.Defers(t.body.scope, f)
                                  then [Reason(PredicateDeferred, None, None, TagsDeferred)] else [])
  {
    var f := Readiness.FactsOf(d);
    var targets := ActiveTargets(rows);
    var ranked := Ranked(targets, f);
    TargetsAreOrdered(rows);
    NothingRankedIff(rows, d);
    NoLiveTargetsIff(rows);
    DeferredIff(targets, f);
    if ranked != [] {
      assert targets != [] by {
        assert ranked[0] in ranked;
        RankingRanksMatches(rows, d);
      }
      MatchedTells(ranked, observed);
    }
  }

  lemma NothingRankedIff(rows: seq<Target>, d: Device)
    ensures Ranked(ActiveTargets(rows), Readiness.FactsOf(d)) == [] <==>
            forall t :: t in rows && t.live ==> !ScopeSelector.Matches(t.body.scope, Readiness.FactsOf(d))
  {
    var ranked := Ranked(ActiveTargets(rows), Readiness.FactsOf(d));
    RankingRanksMatches(rows, d);
    if ranked != [] {
      assert ranked[0] in ranked;
    }
    if t :| t in rows && t.live && ScopeSelector.Matches(t.body.scope, Readiness.FactsOf(d)) {
      assert Candidate(t, ScopeSelector.Specificity(t.body.scope)) in ranked;
    }
  }

  lemma NoLiveTargetsIff(rows: seq<Target>)
    ensures |ActiveTargets(rows)| == |LiveTargets(rows)|
    ensures ActiveTargets(rows) == [] <==> forall t :: t in rows ==> !t.live
  {
    TargetsAreOrdered(rows);
    if ActiveTargets(rows) != [] {
      assert ActiveTargets(rows)[0] in ActiveTargets(rows);
    }
  }

  lemma DeferredIff(targets: seq<Target>, f: ScopeSelector.Facts)
    ensures AnyDefers(targets, f) <==> exists t :: t in targets && ScopeSelector.Defers(t.body.scope, f)
  {
    if t :| t in targets && ScopeSelector.Defers(t.body.scope, f) {
      var i :| 0 <= i < |targets| && targets[i] == t;
    }
    if i :| 0 <= i < |targets| && ScopeSelector.Defers(targets[i].body.scope, f) {
      assert targets[i] in targets;
    }
  }

  // ---- the drifts ----------------------------------------------------------

  /** Upstream ones first; the last never fires, and only evidence and discovery may show on a compliant device. */
  lemma DriftOrder()
    ensures Precedence(CatalogDrift) < Precedence(RuleDrift) < Precedence(PackageDrift) < Precedence(TargetDrift)
    ensures Precedence(TargetDrift) < Precedence(DiscoveryDrift) < Precedence(EvidenceDrift)
    ensures Precedence(EvidenceDrift) < Precedence(ExceptionDrift)
    ensures forall x :: Soft(x) <==> x == EvidenceDrift || x == DiscoveryDrift
  {
  }

  /** Some live edge of the platform of the device leads to the version. */
  ghost predicate EdgeTo(env: Env, d: Device, version: string) {
    exists e :: e in env.edges && e.live && d.facts.platform == Some(e.platform) && e.toVersion == version
  }

  /** The package row for vendor and platform of the device and this version, if there is one. */
  ghost predicate PackageIs(env: Env, d: Device, version: string, p: Option<Package>) {
    match p
    case Some(row) =>
      && d.facts.vendor.Some? && d.facts.platform.Some?
      && (d.facts.vendor.value, d.facts.platform.value, version) in env.packages
      && env.packages[(d.facts.vendor.value, d.facts.platform.value, version)] == row
    case None =>
      d.facts.vendor.None? || d.facts.platform.None? ||
      (d.facts.vendor.value, d.facts.platform.value, version) !in env.packages
  }

  lemma SupplyExactly(env: Env, d: Device, version: string)
    ensures SomeEdgeReaches(env.edges, d.facts.platform, version) <==> EdgeTo(env, d, version)
    ensures forall p :: FindPackage(env, d, version) == p <==> PackageIs(env, d, version, p)
  {
    if e :| e in env.edges && e.live && d.facts.platform == Some(e.platform) && e.toVersion == version {
      assert UpgradePath.LiveOn(e, d.facts.platform.value);
    }
  }

  /** The reason that a drift gives for a device with this assessment, if the drift fires. */
  ghost predicate Gives(env: Env, d: Device, a: Assessment, x: Compliance.Finding)
    requires a.state == Readiness.OutsideTarget ==> a.target.Some? && a.observed.Some?
  {
    match x.drift
    case CatalogDrift =>
      a.state == Readiness.Classified &&
      x.reason == (if forall t :: t in env.targets ==> !t.live then Reason(EmptyCatalog, None, None, NoLiveTargets)
                   else Reason(NoTargetMatched, None, None, NoneMatched(|LiveTargets(env.targets)|)))
    case RuleDrift =>
      && a.state == Readiness.OutsideTarget && !EdgeTo(env, d, a.target.value.body.targetVersion)
      && x.reason == Reason(ReasonKind.MissingUpgradePath, None, None,
                            NoEdgeReaches(a.target.value.body.targetVersion))
    case PackageDrift =>
      && a.state == Readiness.OutsideTarget
      && var version := a.target.value.body.targetVersion;
         || (PackageIs(env, d, version, None) && x.reason == Reason(PackageNotBuilt, None, None, NoPackageRow(version)))
         || (exists p :: PackageIs(env, d, version, Some(p)) && !p.blobPresent &&
                         x.reason == Reason(PackageNotBuilt, Some(p.id), Some(FirmwarePackage), NoBlob(version)))
    case TargetDrift =>
      && a.state == Readiness.OutsideTarget
      && x.reason == Reason(VersionMismatch, None, None,
                            OtherVersion(a.observed.value, a.target.value.body.targetVersion))
    case DiscoveryDrift =>
      if d.id !in env.latest then x.reason == Reason(MissingObservation, None, None, NoObservationOnFile)
      else if a.observed.None? then x.reason == Reason(MissingObservation, None, None, NoFirmwareOnFile)
      else
        var age := env.now - env.latest[d.id].observedAt;
        age > env.discoveryStaleDays * 86400 &&
        x.reason == Reason(StaleObservation, Some(env.latest[d.id].id), Some(DeviceObservation),
                           ObservationAge(age / 86400, env.discoveryStaleDays))
    case EvidenceDrift =>
      && a.state == Readiness.Compliant
      && if d.id !in env.reevaluated then x.reason == Reason(StaleObservation, None, None, NeverReevaluated)
         else
           var age := env.now - env.reevaluated[d.id];
           age > env.evidenceStaleDays * 86400 &&
           x.reason == Reason(StaleObservation, None, None, EvidenceAge(age / 86400, env.evidenceStaleDays))
    case ExceptionDrift => false
  }

  /** The rules fire exactly so, each for its own reason. */
  lemma FindingsExactly(env: Env, d: Device, x: Compliance.Finding)
    ensures var a := AssessIn(env, d);
            && (a.state == Readiness.OutsideTarget ==> a.target.Some? && a.observed.Some?)
            && (x in Findings(env, d, a) <==> Gives(env, d, a, x))
  {
    var a := AssessIn(env, d);
    StateExactly(env.targets, d, Lookup(env.observed, d.id));
    FiredMembers(CatalogDriftReason(a), RuleDriftReason(env, d, a), PackageDriftReason(env, d, a), TargetDriftReason(a),
                 DiscoveryDriftReason(env, d, a), EvidenceDriftReason(env, d, a), x);
    match x.drift
    case CatalogDrift => CatalogReasonExactly(env, d);
    case RuleDrift => SupplyReasonsExactly(env, d, a);
    case PackageDrift => SupplyReasonsExactly(env, d, a);
    case TargetDrift => AgeReasonsExactly(env, d, a, x.reason);
    case DiscoveryDrift => AgeReasonsExactly(env, d, a, x.reason);
    case EvidenceDrift => AgeReasonsExactly(env, d, a, x.reason);
    case ExceptionDrift =>
  }

  lemma AgeReasonsExactly(env: Env, d: Device, a: Assessment, reason: Reason)
    requires a.state == Readiness.OutsideTarget ==> a.target.Some? && a.observed.Some?
    ensures TargetDriftReason(a) == Some(reason) <==> Gives(env, d, a, Compliance.Finding.Finding(TargetDrift, reason))
    ensures DiscoveryDriftReason(env, d, a) == Some(reason) <==>
            Gives(env, d, a, Compliance.Finding.Finding(DiscoveryDrift, reason))
    ensures EvidenceDriftReason(env, d, a) == Some(reason) <==>
            Gives(env, d, a, Compliance.Finding.Finding(EvidenceDrift, reason))
  {
  }

  lemma FiredMembers(c: Option<Reason>, r: Option<Reason>, p: Option<Reason>, t: Option<Reason>, o: Option<Reason>,
                     e: Option<Reason>, x: Compliance.Finding)
    ensures x in Fired(CatalogDrift, c) + Fired(RuleDrift, r) + Fired(PackageDrift, p) + Fired(TargetDrift, t) +
                 Fired(DiscoveryDrift, o) + Fired(EvidenceDrift, e) <==>
            match x.drift
            case CatalogDrift => c == Some(x.reason)
            case RuleDrift => r == Some(x.reason)
            case PackageDrift => p == Some(x.reason)
            case TargetDrift => t == Some(x.reason)
            case DiscoveryDrift => o == Some(x.reason)
            case EvidenceDrift => e == Some(x.reason)
            case ExceptionDrift => false
  {
  }

  lemma CatalogReasonExactly(env: Env, d: Device)
    ensures var a := AssessIn(env, d);
            CatalogDriftReason(a) ==
            if a.state != Readiness.Classified then None
            else if forall t :: t in env.targets ==> !t.live then Some(Reason(EmptyCatalog, None, None, NoLiveTargets))
            else Some(Reason(NoTargetMatched, None, None, NoneMatched(|LiveTargets(env.targets)|)))
  {
    StateExactly(env.targets, d, Lookup(env.observed, d.id));
    AssessmentTells(env.targets, d, Lookup(env.observed, d.id));
    var a := AssessIn(env, d);
    assert a.state == Readiness.Classified ==>
             a.reasons[0].kind == EmptyCatalog || a.reasons[0].kind == NoTargetMatched;
  }

  lemma SupplyReasonsExactly(env: Env, d: Device, a: Assessment)
    requires a.state == Readiness.OutsideTarget ==> a.target.Some? && a.observed.Some?
    ensures forall reason :: RuleDriftReason(env, d, a) == Some(reason) <==>
                             Gives(env, d, a, Compliance.Finding.Finding(RuleDrift, reason))
    ensures forall reason :: PackageDriftReason(env, d, a) == Some(reason) <==>
                             Gives(env, d, a, Compliance.Finding.Finding(PackageDrift, reason))
  {
    if a.state == Readiness.OutsideTarget {
      SupplyExactly(env, d, a.target.value.body.targetVersion);
    }
  }

  // ---- the row -------------------------------------------------------------

  /**
   The row of a verdict: state, target and versions of the assessment; the reasons of the assessment
   and then those of the drifts, told once; and the drifts that fired, the most upstream one first.
  */
  lemma RowExactly(env: Env, d: Device)
    ensures var a, row := AssessIn(env, d), VerdictOf(env, d);
            var findings := Findings(env, d, a);
            && row.state == a.state && row.observedVersion == Lookup(env.observed, d.id)
            && row.targetRef == (if a.target.Some? then Some(a.target.value.id) else None)
            && row.targetVersion == (if a.target.Some? then Some(a.target.value.body.targetVersion) else None)
            && ToldOnce(row.reasons)
            && (forall s :: Told(row.reasons, s) <==> Told(a.reasons + ReasonsOf(findings), s))
            && (forall x :: row.primary == Some(x) || x in row.secondary <==> Fires(env, d, x))
            && (row.primary.Some? ==> forall x :: x in row.secondary ==> Precedence(row.primary.value) < Precedence(x))
            && (row.primary.None? ==> row.secondary == [])
  {
    var a := AssessIn(env, d);
    DriftSetIsEmitted(env, d, a);
    StateExactly(env.targets, d, Lookup(env.observed, d.id));
    MergeTellsEachOnce([], a.reasons + ReasonsOf(Findings(env, d, a)));
    PrimaryIsMostUpstream(env, d, a);
  }

  /** The listed drifts are in order, and the actions are those that the builders recommend for them in that order. */
  lemma ActionsExactly(env: Env, d: Device)
    ensures var a, row := AssessIn(env, d), VerdictOf(env, d);
            && StrictlyUpstreamFirst(row.secondary)
            && row.actions == env.actionsFor(d.id, d.facts.platform, a,
                                             if row.primary.Some? then [row.primary.value] + row.secondary else [])
  {
    var a := AssessIn(env, d);
    DriftSetIsEmitted(env, d, a);
    PrimaryIsMostUpstream(env, d, a);
  }
}
