/**
 When two compliance verdicts on a device say the same. Everything a verdict takes from the targets is
 one short bill: which target governs, the first three runners-up, and without a target how many there
 are and whether a tag was out of reach.
*/
module VerdictComparison {
  import opened Prelude
  import opened Sorting
  import opened CatalogLoader
  import opened CatalogStore
  import opened Prerequisites
  import opened Compliance
  import opened ComplianceTheorems
  import Readiness
  import ScopeSelector
  import UpgradePath

  datatype Mention = Mention(id: nat, name: string, specificity: nat)

  datatype Bill =
    | NoTargets
    | Unmatched(live: nat, deferred: bool)
    | Governed(winner: Mention, loadedAt: int, version: string, runnersUp: seq<Mention>)

  function MentionOf(c: Candidate): Mention {
    Mention(c.target.id, c.target.key, c.specificity)
  }

  /** The winner and the runners-up that a verdict reports. */
  function Quoted(ranked: seq<Candidate>): seq<Candidate> {
    if |ranked| <= 1 + RUNNERS_UP_REPORTED then ranked else ranked[..1 + RUNNERS_UP_REPORTED]
  }

  function MentionsOf(cs: seq<Candidate>): (r: seq<Mention>)
    ensures |r| == |cs|
    ensures forall i :: 0 <= i < |r| ==> r[i] == MentionOf(cs[i])
  {
    seq(|cs|, i requires 0 <= i < |cs| => MentionOf(cs[i]))
  }

  function BillFor(targets: seq<Target>, ranked: seq<Candidate>, deferred: bool): Bill {
    if targets == [] then NoTargets
    else if ranked == [] then Unmatched(|targets|, deferred)
    else Governed(MentionOf(ranked[0]), ranked[0].target.loadedAt, ranked[0].target.body.targetVersion,
                  MentionsOf(Quoted(ranked)[1..]))
  }

  function BillOf(rows: seq<Target>, f: ScopeSelector.Facts): Bill {
    var targets := ActiveTargets(rows);
    BillFor(targets, Ranked(targets, f), AnyDefers(targets, f))
  }

  // ---- the reasons are the bill --------------------------------------------

  function RunnersUpTold(es: seq<Mention>): (r: seq<Reason>)
    ensures |r| == |es|
    ensures forall i :: 0 <= i < |r| ==>
              r[i] == Reason(TargetRunnerUp, Some(es[i].id), None, AlsoMatched(es[i].name, es[i].specificity))
  {
    seq(|es|, i requires 0 <= i < |es| =>
      Reason(TargetRunnerUp, Some(es[i].id), None, AlsoMatched(es[i].name, es[i].specificity)))
  }

  function VersionTold(version: string, observed: Option<string>): Reason {
    match observed
    case None => Plain(MissingObservation, NoFirmwareOnFile)
    case Some(v) =>
      if v == version then Plain(VersionMatch, SameVersion(v)) else Plain(VersionMismatch, OtherVersion(v, version))
  }

  /** The reasons of an assessment, from the bill and the observed version alone. */
  function Telling(b: Bill, observed: Option<string>): seq<Reason> {
    match b
    case NoTargets => [Plain(EmptyCatalog, NoLiveTargets)]
    case Unmatched(live, deferred) =>
      [Plain(NoTargetMatched, NoneMatched(live))] + (if deferred then [Plain(PredicateDeferred, TagsDeferred)] else [])
    case Governed(w, loadedAt, version, runnersUp) =>
      [Reason(TargetMatched, Some(w.id), None, MatchedWith(w.name, w.specificity, loadedAt))] +
      RunnersUpTold(runnersUp) + [VersionTold(version, observed)]
  }

  function StateOfBill(b: Bill, observed: Option<string>): State {
    if !b.Governed? then Readiness.Classified
    else if observed.None? then Readiness.UnknownFirmware
    else if observed.value == b.version then Readiness.Compliant
    else Readiness.OutsideTarget
  }

  /** This assessment of some device tells this bill. */
  ghost predicate Bills(a: Assessment, b: Bill) {
    && a.reasons == Telling(b, a.observed) && a.state == StateOfBill(b, a.observed)
    && (a.target.Some? <==> b.Governed?)
    && (b.Governed? ==> a.target.value.id == b.winner.id && a.target.value.body.targetVersion == b.version)
  }

  lemma JudgementTellsTheBill(targets: seq<Target>, ranked: seq<Candidate>, deferred: bool, observed: Option<string>)
    requires targets == [] ==> ranked == []
    ensures Bills(Judge(targets, ranked, deferred, observed), BillFor(targets, ranked, deferred))
    ensures Judge(targets, ranked, deferred, observed).observed == observed
  {
    if ranked != [] {
      var others := ranked[1..];
      var told := if |others| <= RUNNERS_UP_REPORTED then others else others[..RUNNERS_UP_REPORTED];
      assert told == Quoted(ranked)[1..];
      assert RunnersUpReasons(told) == RunnersUpTold(MentionsOf(told));
    }
  }

  lemma AssessmentTellsTheBill(env: Env, d: Device)
    ensures Bills(AssessIn(env, d), BillOf(env.targets, Readiness.FactsOf(d)))
    ensures AssessIn(env, d).observed == Lookup(env.observed, d.id)
  {
    var targets, f := ActiveTargets(env.targets), Readiness.FactsOf(d);
    assert targets == [] ==> Candidates(targets, f) == [];
    JudgementTellsTheBill(targets, Ranked(targets, f), AnyDefers(targets, f), Lookup(env.observed, d.id));
  }

  // ---- no target is listed twice -------------------------------------------

  lemma PermutationStaysDistinct<T>(s: seq<T>, t: seq<T>)
    requires Distinct(s) && multiset(s) == multiset(t)
    ensures Distinct(t)
  {
    DistinctMultiplicity(s);
    forall i, j | 0 <= i < j < |t| ensures t[i] != t[j] {
      if t[i] == t[j] {
        RepeatCountsTwice(t, i, j);
      }
    }
  }

  lemma {:induction false} LiveTargetsDistinct(rows: seq<Target>)
    requires IdsUnique(rows)
    ensures Distinct(LiveTargets(rows))
  {
    if rows == [] {
    } else {
      LiveTargetsDistinct(rows[..|rows| - 1]);
    }
  }

  lemma {:induction false} CandidatesDistinct(targets: seq<Target>, f: ScopeSelector.Facts)
    requires Distinct(targets)
    ensures Distinct(Candidates(targets, f))
  {
    if targets == [] {
    } else {
      var most, last := targets[..|targets| - 1], targets[|targets| - 1];
      CandidatesDistinct(most, f);
      CandidatesExactly(most, f);
      assert last !in most;
    }
  }

  lemma SameIdSameRow(rows: seq<Target>, s: Target, t: Target)
    requires IdsUnique(rows) && s in rows && t in rows && s.id == t.id
    ensures s == t
  {
  }

  lemma ActiveTargetsDistinct(rows: seq<Target>)
    requires IdsUnique(rows)
    ensures Distinct(ActiveTargets(rows))
  {
    LiveTargetsDistinct(rows);
    SortPermutes(LiveTargets(rows), NewerFirst);
    PermutationStaysDistinct(LiveTargets(rows), ActiveTargets(rows));
  }

  lemma RankedDistinct(targets: seq<Target>, f: ScopeSelector.Facts)
    requires Distinct(targets)
    ensures Distinct(Ranked(targets, f))
    ensures forall c :: c in Ranked(targets, f) <==>
              c.target in targets && Governs(c.target, f) && c == CandidateOf(c.target)
  {
    CandidatesDistinct(targets, f);
    CandidatesExactly(targets, f);
    SortPermutes(Candidates(targets, f), MoreSpecificFirst);
    PermutationStaysDistinct(Candidates(targets, f), Ranked(targets, f));
  }

  /** Every candidate of the list stands for a row of its own. */
  ghost predicate OwnIds(cs: seq<Candidate>) {
    forall i, j :: 0 <= i < j < |cs| ==> cs[i].target.id != cs[j].target.id
  }

  lemma DistinctCandidatesHaveOwnIds(rows: seq<Target>, cs: seq<Candidate>)
    requires IdsUnique(rows) && Distinct(cs)
    requires forall c :: c in cs ==> c.target in rows && c == CandidateOf(c.target)
    ensures OwnIds(cs)
  {
    forall i, j | 0 <= i < j < |cs| ensures cs[i].target.id != cs[j].target.id {
      assert cs[i] in cs && cs[j] in cs;
      if cs[i].target.id == cs[j].target.id {
        SameIdSameRow(rows, cs[i].target, cs[j].target);
      }
    }
  }

  /** The ranking holds exactly the live targets that govern the device, each once, under ids of their own. */
  lemma RankingExactly(rows: seq<Target>, f: ScopeSelector.Facts)
    requires IdsUnique(rows)
    ensures var ranked := Ranked(ActiveTargets(rows), f);
            && Distinct(ranked) && OwnIds(ranked)
            && forall c :: c in ranked <==> Eligible(rows, f, c.target) && c == CandidateOf(c.target)
  {
    ActiveTargetsDistinct(rows);
    TargetsAreOrdered(rows);
    RankedDistinct(ActiveTargets(rows), f);
    DistinctCandidatesHaveOwnIds(rows, Ranked(ActiveTargets(rows), f));
  }

  /** No runner-up is listed twice. */
  ghost predicate ProperBill(b: Bill) {
    b.Governed? ==> forall i, j :: 0 <= i < j < |b.runnersUp| ==> b.runnersUp[i].id != b.runnersUp[j].id
  }

  lemma BillsAreProper(rows: seq<Target>, f: ScopeSelector.Facts)
    requires IdsUnique(rows)
    ensures ProperBill(BillOf(rows, f))
  {
    RankingExactly(rows, f);
  }

  /** How many runners-up a governed telling names can be read off the kinds. */
  lemma KindsOfTelling(b: Bill, observed: Option<string>, x: seq<Reason>)
    requires b.Governed? && Telling(b, observed) <= x
    ensures |x| > 1 + |b.runnersUp| && x[1 + |b.runnersUp|].kind != TargetRunnerUp
    ensures forall i :: 1 <= i <= |b.runnersUp| ==> x[i].kind == TargetRunnerUp
    ensures x[0] == Telling(b, observed)[0]
    ensures forall i :: 0 <= i < |b.runnersUp| ==> x[i + 1] == RunnersUpTold(b.runnersUp)[i]
  {
    var s := Telling(b, observed);
    assert s[1 + |b.runnersUp|] == VersionTold(b.version, observed);
    assert forall i :: 0 <= i < |s| ==> x[i] == s[i];
    assert forall i :: 0 <= i < |b.runnersUp| ==> s[i + 1] == RunnersUpTold(b.runnersUp)[i];
    forall i | 1 <= i <= |b.runnersUp| ensures x[i].kind == TargetRunnerUp {
      assert s[(i - 1) + 1] == RunnersUpTold(b.runnersUp)[i - 1];
    }
  }

  lemma TellingIsToldOnce(b: Bill, observed: Option<string>)
    requires ProperBill(b)
    ensures ToldOnce(Telling(b, observed))
  {
    if b.Governed? {
      GovernedTellingIsToldOnce(b, observed, Telling(b, observed));
    }
  }

  lemma GovernedTellingIsToldOnce(b: Bill, observed: Option<string>, s: seq<Reason>)
    requires ProperBill(b) && b.Governed? && s == Telling(b, observed)
    ensures ToldOnce(s)
  {
    KindsOfTelling(b, observed, s);
    var told := RunnersUpTold(b.runnersUp);
    forall i, j | 0 <= i < j < |s| ensures SignatureOf(s[i]) != SignatureOf(s[j]) {
      if 0 < i && j <= |b.runnersUp| {
        assert s[(i - 1) + 1] == told[i - 1] && s[(j - 1) + 1] == told[j - 1];
      } else if 0 < i {
        assert s[i].kind == TargetRunnerUp;
      } else {
        assert s[i].kind == TargetMatched;
      }
    }
  }

  // ---- the merged reasons give the bill away -------------------------------

  lemma {:induction false} MergingTheDistinct(told: seq<Reason>)
    requires ToldOnce(told)
    ensures Merge([], told) == told
  {
    if told == [] {
    } else {
      var most, last := told[..|told| - 1], told[|told| - 1];
      MergingTheDistinct(most);
      assert told == most + [last];
    }
  }

  lemma {:induction false} MergeInTwo(a: seq<Reason>, b: seq<Reason>, c: seq<Reason>)
    ensures Merge(a, b + c) == Merge(Merge(a, b), c)
  {
    if c == [] {
      assert b + c == b;
    } else {
      MergeInTwo(a, b, c[..|c| - 1]);
      assert (b + c)[..|b + c| - 1] == b + c[..|c| - 1];
    }
  }

  /** Reasons that are told once come first, in their own order. */
  lemma DistinctReasonsComeFirst(told: seq<Reason>, more: seq<Reason>)
    requires ToldOnce(told)
    ensures told <= Merge([], told + more)
    ensures forall s :: Told(Merge([], told + more), s) <==> Told(told, s) || Told(more, s)
    ensures forall r :: r in Merge([], told + more) ==> r in told || r in more
  {
    MergingTheDistinct(told);
    MergeInTwo([], told, more);
    MergeTellsEachOnce(told, more);
  }

  /** The kinds that only an assessment tells. */
  predicate OfTargets(kind: ReasonKind) {
    kind == TargetMatched || kind == TargetRunnerUp || kind == PredicateDeferred
  }

  ghost predicate NoneOfTargets(reasons: seq<Reason>) {
    forall r :: r in reasons ==> !OfTargets(r.kind)
  }

  lemma RunnersUpAreAsMany(n: nat, m: nat, x: seq<Reason>, y: seq<Reason>)
    requires SameReasons(x, y) && |x| > 1 + n && |y| > 1 + m
    requires x[1 + n].kind != TargetRunnerUp && y[1 + m].kind != TargetRunnerUp
    requires forall i :: 1 <= i <= n ==> x[i].kind == TargetRunnerUp
    requires forall i :: 1 <= i <= m ==> y[i].kind == TargetRunnerUp
    ensures n == m
  {
    assert SignatureOf(x[1 + n]) == SignatureOf(y[1 + n]) || 1 + n >= |y|;
    assert SignatureOf(x[1 + m]) == SignatureOf(y[1 + m]) || 1 + m >= |x|;
  }

  /** Two tellings that agree reason by reason, as far as both go, tell the same winner and runners-up. */
  lemma GovernedBillsAgree(a: Bill, b: Bill, observed: Option<string>, x: seq<Reason>, y: seq<Reason>)
    requires a.Governed? && b.Governed? && a.version == b.version
    requires Telling(a, observed) <= x && Telling(b, observed) <= y && SameReasons(x, y)
    ensures a == b
  {
    KindsOfTelling(a, observed, x);
    KindsOfTelling(b, observed, y);
    RunnersUpAreAsMany(|a.runnersUp|, |b.runnersUp|, x, y);
    assert SignatureOf(x[0]) == SignatureOf(y[0]);
    forall i | 0 <= i < |a.runnersUp| ensures a.runnersUp[i] == b.runnersUp[i] {
      assert SignatureOf(x[i + 1]) == SignatureOf(y[i + 1]);
    }
  }

  lemma DeferralIsTold(a: Bill, observed: Option<string>, more: seq<Reason>, x: seq<Reason>)
    requires a.Unmatched? && NoneOfTargets(more) && x == Merge([], Telling(a, observed) + more)
    requires ToldOnce(Telling(a, observed))
    ensures Telling(a, observed) <= x
    ensures a.deferred <==> |x| > 1 && x[1].kind == PredicateDeferred
  {
    DistinctReasonsComeFirst(Telling(a, observed), more);
    if |x| > 1 {
      assert x[1] in x;
    }
  }

  /** Merged reasons of the same signatures come from the same bill. */
  lemma BillsAgree(a: Bill, b: Bill, observed: Option<string>, more: seq<Reason>, other: seq<Reason>)
    requires ProperBill(a) && ProperBill(b) && NoneOfTargets(more) && NoneOfTargets(other)
    requires a.Governed? && b.Governed? ==> a.version == b.version
    requires SameReasons(Merge([], Telling(a, observed) + more), Merge([], Telling(b, observed) + other))
    ensures a == b
  {
    var x, y := Merge([], Telling(a, observed) + more), Merge([], Telling(b, observed) + other);
    TellingIsToldOnce(a, observed);
    TellingIsToldOnce(b, observed);
    DistinctReasonsComeFirst(Telling(a, observed), more);
    DistinctReasonsComeFirst(Telling(b, observed), other);
    assert x[0] == Telling(a, observed)[0] && y[0] == Telling(b, observed)[0] && SignatureOf(x[0]) == SignatureOf(y[0]);
    if a.Governed? && b.Governed? {
      GovernedBillsAgree(a, b, observed, x, y);
    } else if a.Unmatched? && b.Unmatched? {
      DeferralIsTold(a, observed, more, x);
      DeferralIsTold(b, observed, other, y);
      assert |x| > 1 ==> SignatureOf(x[1]) == SignatureOf(y[1]);
    }
  }

  // ---- the supply of the target version -------------------------------------

  /** What the catalog is short of for a version. */
  datatype PackageGap = OnFile | NoRow | NoContent(id: nat)

  function PackageGapOf(env: Env, d: Device, version: string): PackageGap {
    match FindPackage(env, d, version)
    case None => NoRow
    case Some(p) => if p.blobPresent then OnFile else NoContent(p.id)
  }

  /** Another catalog has an edge to the version, and is short of the same package, exactly as this one. */
  ghost predicate SameSupply(env: Env, later: Env, d: Device, version: string) {
    && SomeEdgeReaches(env.edges, d.facts.platform, version) == SomeEdgeReaches(later.edges, d.facts.platform, version)
    && PackageGapOf(env, d, version) == PackageGapOf(later, d, version)
  }

  lemma ReasonsOfBoth(a: seq<Compliance.Finding>, b: seq<Compliance.Finding>)
    ensures ReasonsOf(a + b) == ReasonsOf(a) + ReasonsOf(b)
  {
  }

  lemma ReasonFired(drift: Drift, reason: Option<Reason>, x: Reason)
    ensures x in ReasonsOf(Fired(drift, reason)) <==> reason == Some(x)
  {
    if reason.Some? {
      assert ReasonsOf(Fired(drift, reason)) == [reason.value];
    }
  }

  lemma FiredReasons(c: Option<Reason>, r: Option<Reason>, p: Option<Reason>, t: Option<Reason>, o: Option<Reason>,
                     e: Option<Reason>, x: Reason)
    ensures x in ReasonsOf(Fired(CatalogDrift, c) + Fired(RuleDrift, r) + Fired(PackageDrift, p) +
                           Fired(TargetDrift, t) + Fired(DiscoveryDrift, o) + Fired(EvidenceDrift, e)) <==>
            Some(x) == c || Some(x) == r || Some(x) == p || Some(x) == t || Some(x) == o || Some(x) == e
  {
    var s1, s2, s3 := Fired(CatalogDrift, c), Fired(RuleDrift, r), Fired(PackageDrift, p);
    var s4, s5, s6 := Fired(TargetDrift, t), Fired(DiscoveryDrift, o), Fired(EvidenceDrift, e);
    ReasonsOfBoth(s1, s2);
    ReasonsOfBoth(s1 + s2, s3);
    ReasonsOfBoth(s1 + s2 + s3, s4);
    ReasonsOfBoth(s1 + s2 + s3 + s4, s5);
    ReasonsOfBoth(s1 + s2 + s3 + s4 + s5, s6);
    ReasonFired(CatalogDrift, c, x);
    ReasonFired(RuleDrift, r, x);
    ReasonFired(PackageDrift, p, x);
    ReasonFired(TargetDrift, t, x);
    ReasonFired(DiscoveryDrift, o, x);
    ReasonFired(EvidenceDrift, e, x);
  }

  lemma FindingReasonsExactly(env: Env, d: Device, a: Assessment, x: Reason)
    ensures x in ReasonsOf(Findings(env, d, a)) <==>
            || Some(x) == CatalogDriftReason(a) || Some(x) == RuleDriftReason(env, d, a)
            || Some(x) == PackageDriftReason(env, d, a) || Some(x) == TargetDriftReason(a)
            || Some(x) == DiscoveryDriftReason(env, d, a) || Some(x) == EvidenceDriftReason(env, d, a)
  {
    FiredReasons(CatalogDriftReason(a), RuleDriftReason(env, d, a), PackageDriftReason(env, d, a), TargetDriftReason(a),
                 DiscoveryDriftReason(env, d, a), EvidenceDriftReason(env, d, a), x);
  }

  lemma FindingsAreNotOfTargets(env: Env, d: Device, a: Assessment)
    ensures NoneOfTargets(ReasonsOf(Findings(env, d, a)))
  {
    CatalogDriftKinds(a.reasons);
    forall x | x in ReasonsOf(Findings(env, d, a)) ensures !OfTargets(x.kind) {
      FindingReasonsExactly(env, d, a, x);
    }
  }

  function GapReason(gap: PackageGap, version: string): Option<Reason> {
    match gap
    case OnFile => None
    case NoRow => Some(Plain(PackageNotBuilt, NoPackageRow(version)))
    case NoContent(id) => Some(Reason(PackageNotBuilt, Some(id), Some(FirmwarePackage), NoBlob(version)))
  }

  /** Outside its target a device is told of a missing edge and of a package gap, each by a reason of its own. */
  lemma SupplyIsTold(env: Env, d: Device, a: Assessment, b: Bill)
    requires Bills(a, b) && a.state == Readiness.OutsideTarget
    ensures RuleDriftReason(env, d, a) == if SomeEdgeReaches(env.edges, d.facts.platform, b.version) then None
                                          else Some(Plain(ReasonKind.MissingUpgradePath, NoEdgeReaches(b.version)))
    ensures PackageDriftReason(env, d, a) == GapReason(PackageGapOf(env, d, b.version), b.version)
  {
  }

  /** A reason about edges or packages is told exactly when its rule gives it. */
  lemma SupplyReasonsExactly(env: Env, d: Device, a: Assessment, b: Bill, s: Signature)
    requires Bills(a, b) && (s.0 == ReasonKind.MissingUpgradePath || s.0 == PackageNotBuilt)
    ensures Told(a.reasons + ReasonsOf(Findings(env, d, a)), s) <==>
            || (RuleDriftReason(env, d, a).Some? && SignatureOf(RuleDriftReason(env, d, a).value) == s)
            || (PackageDriftReason(env, d, a).Some? && SignatureOf(PackageDriftReason(env, d, a).value) == s)
  {
    var more := ReasonsOf(Findings(env, d, a));
    CatalogDriftKinds(a.reasons);
    forall r | r in more && SignatureOf(r) == s
      ensures Some(r) == RuleDriftReason(env, d, a) || Some(r) == PackageDriftReason(env, d, a)
    {
      FindingReasonsExactly(env, d, a, r);
    }
    if RuleDriftReason(env, d, a).Some? {
      FindingReasonsExactly(env, d, a, RuleDriftReason(env, d, a).value);
    }
    if PackageDriftReason(env, d, a).Some? {
      FindingReasonsExactly(env, d, a, PackageDriftReason(env, d, a).value);
    }
    TellingHasNoSupply(b, a.observed, s);
    ToldByMember(a.reasons + more, s);
    ToldByMember(a.reasons, s);
  }

  lemma ToldByMember(reasons: seq<Reason>, s: Signature)
    ensures Told(reasons, s) <==> exists r :: r in reasons && SignatureOf(r) == s
  {
    if r :| r in reasons && SignatureOf(r) == s {
      var i :| 0 <= i < |reasons| && reasons[i] == r;
    }
  }

  lemma TellingHasNoSupply(b: Bill, observed: Option<string>, s: Signature)
    requires s.0 == ReasonKind.MissingUpgradePath || s.0 == PackageNotBuilt
    ensures !Told(Telling(b, observed), s)
  {
    forall r | r in Telling(b, observed) ensures SignatureOf(r) != s {
    }
  }

  lemma SameReasonsTellTheSame(x: seq<Reason>, y: seq<Reason>, s: Signature)
    requires SameReasons(x, y)
    ensures Told(x, s) <==> Told(y, s)
  {
    assert forall i :: 0 <= i < |x| ==> SignatureOf(x[i]) == SignatureOf(y[i]);
  }

  // ---- when two verdicts say the same --------------------------------------

  function MergedReasons(env: Env, d: Device, a: Assessment): seq<Reason> {
    Merge([], a.reasons + ReasonsOf(Findings(env, d, a)))
  }

  lemma MergedTellsAll(env: Env, d: Device, a: Assessment, s: Signature)
    ensures Told(MergedReasons(env, d, a), s) <==> Told(a.reasons + ReasonsOf(Findings(env, d, a)), s)
  {
    MergeTellsEachOnce([], a.reasons + ReasonsOf(Findings(env, d, a)));
  }

  /** What the merged reasons tell of the supply, by signature. */
  lemma MergedSupply(env: Env, d: Device, a: Assessment, b: Bill, s: Signature)
    requires Bills(a, b) && a.state == Readiness.OutsideTarget
    requires s.0 == ReasonKind.MissingUpgradePath || s.0 == PackageNotBuilt
    ensures var gap := GapReason(PackageGapOf(env, d, b.version), b.version);
            Told(MergedReasons(env, d, a), s) <==>
            || (s == (ReasonKind.MissingUpgradePath, None, NoEdgeReaches(b.version)) &&
                !SomeEdgeReaches(env.edges, d.facts.platform, b.version))
            || (gap.Some? && s == SignatureOf(gap.value))
  {
    MergedTellsAll(env, d, a, s);
    SupplyIsTold(env, d, a, b);
    SupplyReasonsExactly(env, d, a, b, s);
  }

  lemma SupplyAgrees(env: Env, later: Env, d: Device, a: Assessment, b: Assessment, bill: Bill)
    requires Bills(a, bill) && Bills(b, bill) && a.state == b.state == Readiness.OutsideTarget
    requires SameReasons(MergedReasons(env, d, a), MergedReasons(later, d, b))
    ensures SameSupply(env, later, d, bill.version)
  {
    var x, y, v := MergedReasons(env, d, a), MergedReasons(later, d, b), bill.version;
    var edge: Signature := (ReasonKind.MissingUpgradePath, None, NoEdgeReaches(v));
    var noRow: Signature := (PackageNotBuilt, None, NoPackageRow(v));
    SameToldSupply(env, later, d, a, b, bill, edge);
    SameToldSupply(env, later, d, a, b, bill, noRow);
    var p, q := PackageGapOf(env, d, v), PackageGapOf(later, d, v);
    if p.NoContent? {
      SameToldSupply(env, later, d, a, b, bill, (PackageNotBuilt, Some(p.id), NoBlob(v)));
    }
    if q.NoContent? {
      SameToldSupply(env, later, d, a, b, bill, (PackageNotBuilt, Some(q.id), NoBlob(v)));
    }
  }

  lemma SameToldSupply(env: Env, later: Env, d: Device, a: Assessment, b: Assessment, bill: Bill, s: Signature)
    requires Bills(a, bill) && Bills(b, bill) && a.state == b.state == Readiness.OutsideTarget
    requires SameReasons(MergedReasons(env, d, a), MergedReasons(later, d, b))
    requires s.0 == ReasonKind.MissingUpgradePath || s.0 == PackageNotBuilt
    ensures var v := bill.version;
            var gap, other := GapReason(PackageGapOf(env, d, v), v), GapReason(PackageGapOf(later, d, v), v);
            var edge: Signature := (ReasonKind.MissingUpgradePath, None, NoEdgeReaches(v));
            || (s == edge && !SomeEdgeReaches(env.edges, d.facts.platform, v))
            || (gap.Some? && s == SignatureOf(gap.value)) <==>
            || (s == edge && !SomeEdgeReaches(later.edges, d.facts.platform, v))
            || (other.Some? && s == SignatureOf(other.value))
  {
    MergedSupply(env, d, a, bill, s);
    MergedSupply(later, d, b, bill, s);
    SameReasonsTellTheSame(MergedReasons(env, d, a), MergedReasons(later, d, b), s);
  }

  /** The same bill and the same supply let the same rules fire for the same reasons. */
  lemma SameBillSameFindings(env: Env, later: Env, d: Device, a: Assessment, b: Assessment, bill: Bill)
    requires later == env.(targets := later.targets, packages := later.packages, edges := later.edges)
    requires Bills(a, bill) && Bills(b, bill) && a.observed == b.observed
    requires a.state == Readiness.OutsideTarget ==> SameSupply(env, later, d, bill.version)
    ensures Findings(env, d, a) == Findings(later, d, b)
  {
    if a.state == Readiness.OutsideTarget {
      SupplyIsTold(env, d, a, bill);
      SupplyIsTold(later, d, b, bill);
    }
    assert RuleDriftReason(env, d, a) == RuleDriftReason(later, d, b);
    assert PackageDriftReason(env, d, a) == PackageDriftReason(later, d, b);
    assert CatalogDriftReason(a) == CatalogDriftReason(b);
    assert TargetDriftReason(a) == TargetDriftReason(b);
    assert DiscoveryDriftReason(env, d, a) == DiscoveryDriftReason(later, d, b);
    assert EvidenceDriftReason(env, d, a) == EvidenceDriftReason(later, d, b);
  }

  /** The recommended actions are the same up to their order. */
  ghost predicate SameActions(v: VerdictRow, w: VerdictRow) {
    Sort(v.actions, ByKind) == Sort(w.actions, ByKind)
  }

  lemma ClassifiedAlike(env: Env, later: Env, d: Device, a: Assessment, b: Assessment, bill: Bill)
    requires Bills(a, bill) && Bills(b, bill) && a.observed == b.observed
    requires Findings(env, d, a) == Findings(later, d, b)
    ensures var v, w := Classify(env, d, a), Classify(later, d, b);
            Compliance.SameVerdict(v, w) <==> SameActions(v, w)
  {
    var v, w := Classify(env, d, a), Classify(later, d, b);
    assert a.reasons == b.reasons && a.state == b.state;
    assert DriftSet(env, d, a) == DriftSet(later, d, b);
    assert v == w.(actions := v.actions);
    ActionsDecide(v, w);
  }

  lemma ActionsDecide(v: VerdictRow, w: VerdictRow)
    requires v == w.(actions := v.actions)
    ensures Compliance.SameVerdict(v, w) <==> SameActions(v, w)
  {
  }

  lemma SameVerdictSameBill(env: Env, later: Env, d: Device, a: Assessment, b: Assessment, p: Bill, q: Bill)
    requires Bills(a, p) && Bills(b, q) && ProperBill(p) && ProperBill(q) && a.observed == b.observed
    requires Compliance.SameVerdict(Classify(env, d, a), Classify(later, d, b))
    ensures p == q
  {
    FindingsAreNotOfTargets(env, d, a);
    FindingsAreNotOfTargets(later, d, b);
    BillsAgree(p, q, a.observed, ReasonsOf(Findings(env, d, a)), ReasonsOf(Findings(later, d, b)));
  }

  /** On assessments: what decides whether two verdicts say the same. */
  lemma ClassifiedTheSameIff(env: Env, later: Env, d: Device, a: Assessment, b: Assessment, p: Bill, q: Bill)
    requires later == env.(targets := later.targets, packages := later.packages, edges := later.edges)
    requires Bills(a, p) && Bills(b, q) && ProperBill(p) && ProperBill(q) && a.observed == b.observed
    ensures var v, w := Classify(env, d, a), Classify(later, d, b);
            Compliance.SameVerdict(v, w) <==>
            && p == q
            && (a.state == Readiness.OutsideTarget ==> SameSupply(env, later, d, p.version))
            && SameActions(v, w)
  {
    if Compliance.SameVerdict(Classify(env, d, a), Classify(later, d, b)) {
      SameVerdictSameBill(env, later, d, a, b, p, q);
      if a.state == Readiness.OutsideTarget {
        SupplyAgrees(env, later, d, a, b, p);
      }
    }
    if p == q && (a.state == Readiness.OutsideTarget ==> SameSupply(env, later, d, p.version)) {
      SameBillSameFindings(env, later, d, a, b, p);
      ClassifiedAlike(env, later, d, a, b, p);
    }
  }

  /**
   Two verdicts on a device, under two catalogs and at two lifecycles, say the same exactly when the
   bill is the same, the supply of the target version is the same if the device is outside its target,
   and the builders recommend the same actions.
  */
  lemma VerdictsSayTheSameIff(env: Env, later: Env, d: Device, e: Device)
    requires later == env.(targets := later.targets, packages := later.packages, edges := later.edges)
    requires e == d.(lifecycle := e.lifecycle) && IdsUnique(env.targets) && IdsUnique(later.targets)
    ensures var bill := BillOf(env.targets, Readiness.FactsOf(d));
            Compliance.SameVerdict(VerdictOf(env, d), VerdictOf(later, e)) <==>
            && bill == BillOf(later.targets, Readiness.FactsOf(e))
            && (AssessIn(env, d).state == Readiness.OutsideTarget ==>
                  bill.Governed? && SameSupply(env, later, d, bill.version))
            && SameActions(VerdictOf(env, d), VerdictOf(later, e))
  {
    AssessmentTellsTheBill(env, d);
    AssessmentTellsTheBill(later, e);
    BillsAreProper(env.targets, Readiness.FactsOf(d));
    BillsAreProper(later.targets, Readiness.FactsOf(e));
    ClassifyIgnoresLifecycle(later, d, e.lifecycle, AssessIn(later, e));
    ClassifiedTheSameIff(env, later, d, AssessIn(env, d), AssessIn(later, e),
                         BillOf(env.targets, Readiness.FactsOf(d)), BillOf(later.targets, Readiness.FactsOf(e)));
  }

  // ---- evaluating twice ----------------------------------------------------

  /** The two facts get the same winner and the same reported runners-up, and without a winner the same deferral. */
  ghost predicate SameResolution(rows: seq<Target>, f: ScopeSelector.Facts, g: ScopeSelector.Facts) {
    var targets := ActiveTargets(rows);
    && Quoted(Ranked(targets, f)) == Quoted(Ranked(targets, g))
    && (Ranked(targets, f) == [] ==> AnyDefers(targets, f) == AnyDefers(targets, g))
  }

  /** In one table a mention gives its row away. */
  lemma MentionedAlike(rows: seq<Target>, c: Candidate, e: Candidate)
    requires IdsUnique(rows) && c.target in rows && e.target in rows && MentionOf(c) == MentionOf(e)
    requires c == CandidateOf(c.target) && e == CandidateOf(e.target)
    ensures c == e
  {
    SameIdSameRow(rows, c.target, e.target);
  }

  ghost predicate Lists(rows: seq<Target>, cs: seq<Candidate>) {
    forall c :: c in cs ==> c.target in rows && c == CandidateOf(c.target)
  }

  lemma QuotedAlike(rows: seq<Target>, xs: seq<Candidate>, ys: seq<Candidate>)
    requires IdsUnique(rows) && Lists(rows, xs) && Lists(rows, ys) && MentionsOf(xs) == MentionsOf(ys)
    ensures xs == ys
  {
    assert |xs| == |MentionsOf(xs)| == |MentionsOf(ys)| == |ys|;
    forall i | 0 <= i < |xs| ensures xs[i] == ys[i] {
      assert MentionsOf(xs)[i] == MentionsOf(ys)[i];
      MentionedAlike(rows, xs[i], ys[i]);
    }
  }

  lemma QuotedIsHeadAndRest(cs: seq<Candidate>)
    requires cs != []
    ensures Quoted(cs) == [cs[0]] + Quoted(cs)[1..]
    ensures forall c :: c in Quoted(cs)[1..] ==> c in cs
  {
  }

  lemma SameListBillIff(rows: seq<Target>, targets: seq<Target>, x: seq<Candidate>, y: seq<Candidate>, p: bool, q: bool)
    requires IdsUnique(rows) && Lists(rows, x) && Lists(rows, y) && (targets == [] ==> x == y == [] && p == q)
    ensures BillFor(targets, x, p) == BillFor(targets, y, q) <==> Quoted(x) == Quoted(y) && (x == [] ==> p == q)
    ensures BillFor(targets, x, p) == BillFor(targets, y, q) && x != [] ==> y != [] && x[0] == y[0]
  {
    if x != [] && y != [] {
      QuotedIsHeadAndRest(x);
      QuotedIsHeadAndRest(y);
      if BillFor(targets, x, p) == BillFor(targets, y, q) {
        MentionedAlike(rows, x[0], y[0]);
        QuotedAlike(rows, Quoted(x)[1..], Quoted(y)[1..]);
      }
    }
  }

  lemma SameBillIff(rows: seq<Target>, f: ScopeSelector.Facts, g: ScopeSelector.Facts)
    requires IdsUnique(rows)
    ensures BillOf(rows, f) == BillOf(rows, g) <==> SameResolution(rows, f, g)
    ensures BillOf(rows, f) == BillOf(rows, g) ==> Winner(rows, f) == Winner(rows, g)
  {
    var targets := ActiveTargets(rows);
    RankingExactly(rows, f);
    RankingExactly(rows, g);
    assert targets == [] ==> Candidates(targets, f) == [] && Candidates(targets, g) == [];
    SameListBillIff(rows, targets, Ranked(targets, f), Ranked(targets, g),
                    AnyDefers(targets, f), AnyDefers(targets, g));
  }

  /** Resolved alike at two lifecycles, a device gets the very same assessment, and so the same verdict. */
  lemma ResolvedAlike(env: Env, d: Device, e: Device)
    requires e == d.(lifecycle := e.lifecycle) && IdsUnique(env.targets)
    requires SameResolution(env.targets, Readiness.FactsOf(d), Readiness.FactsOf(e))
    ensures VerdictOf(env, e) == VerdictOf(env, d)
  {
    SameBillIff(env.targets, Readiness.FactsOf(d), Readiness.FactsOf(e));
    AssessmentTellsTheBill(env, d);
    AssessmentTellsTheBill(env, e);
    StateExactly(env.targets, d, Lookup(env.observed, d.id));
    StateExactly(env.targets, e, Lookup(env.observed, d.id));
    assert AssessIn(env, d) == AssessIn(env, e);
    ClassifyIgnoresLifecycle(env, d, e.lifecycle, AssessIn(env, e));
  }

  /**
   When evaluating a device twice is silent, in terms a caller can look up: the targets resolve the
   same, down to the runners-up that are reported, at the lifecycle before the first evaluation and at
   the one it leaves.
  */
  lemma EvaluatingTwiceIsSilentIff(env: Env, s: Stored, id: nat)
    requires WellKeyed(s.devices) && id in s.devices && IdsUnique(env.targets)
    ensures var once, d := Evaluated(env, s, id), s.devices[id];
            Evaluated(env, once, id) == once <==>
            SameResolution(env.targets, Readiness.FactsOf(d), Readiness.FactsOf(Settle(env, d)))
  {
    var d := s.devices[id];
    var e := Settle(env, d);
    EvaluatingTwiceAddsNothingIff(env, s, id);
    SameBillIff(env.targets, Readiness.FactsOf(d), Readiness.FactsOf(e));
    if Compliance.SameVerdict(VerdictOf(env, d), VerdictOf(env, e)) {
      VerdictsSayTheSameIff(env, env, d, e);
    }
    if SameResolution(env.targets, Readiness.FactsOf(d), Readiness.FactsOf(e)) {
      ResolvedAlike(env, d, e);
      SaysTheSameAsItself(VerdictOf(env, d));
    }
  }

  lemma SaysTheSameAsItself(v: VerdictRow)
    ensures Compliance.SameVerdict(v, v)
  {
  }

  // ---- a ranking that loses rows -------------------------------------------

  /** More specific comes first, and of two equally specific targets the newer one. */
  predicate RanksBefore(a: Candidate, b: Candidate) {
    a.specificity > b.specificity || (a.specificity == b.specificity && a.target.loadedAt >= b.target.loadedAt)
  }

  lemma RanksBeforeIsOrder()
    ensures TotalPreorder(RanksBefore)
  {
  }

  lemma {:induction false} InsertKeepsRank(s: seq<Candidate>, x: Candidate)
    requires Sorted(s, RanksBefore) && forall c :: c in s ==> c.target.loadedAt >= x.target.loadedAt
    ensures Sorted(Insert(s, x, MoreSpecificFirst), RanksBefore)
  {
    if s == [] {
    } else if MoreSpecificFirst(s[|s| - 1], x) {
      forall i | 0 <= i < |s| ensures RanksBefore(s[i], x) {
        assert s[i] in s && (i == |s| - 1 || RanksBefore(s[i], s[|s| - 1]));
      }
    } else {
      var most, last := s[..|s| - 1], s[|s| - 1];
      InsertKeepsRank(most, x);
      InsertPermutes(most, x, MoreSpecificFirst);
      var r := Insert(most, x, MoreSpecificFirst);
      forall i | 0 <= i < |r| ensures RanksBefore(r[i], last) {
        assert r[i] in multiset(r);
        if r[i] != x {
          assert r[i] in most;
        }
      }
    }
  }

  /** Sorting a newest-first list by specificity, stably, leaves it newest first within each specificity. */
  lemma {:induction false} SortKeepsRank(cs: seq<Candidate>)
    requires forall i, j :: 0 <= i < j < |cs| ==> cs[i].target.loadedAt >= cs[j].target.loadedAt
    ensures Sorted(Sort(cs, MoreSpecificFirst), RanksBefore)
  {
    if cs == [] {
    } else {
      var most, last := cs[..|cs| - 1], cs[|cs| - 1];
      SortKeepsRank(most);
      SortPermutes(most, MoreSpecificFirst);
      InsertKeepsRank(Sort(most, MoreSpecificFirst), last);
    }
  }

  lemma RankingIsOrdered(rows: seq<Target>, f: ScopeSelector.Facts)
    ensures Sorted(Ranked(ActiveTargets(rows), f), RanksBefore)
  {
    TargetsAreOrdered(rows);
    CandidatesInOrder(ActiveTargets(rows), f);
    SortKeepsRank(Candidates(ActiveTargets(rows), f));
  }

  /** With distinct load times the ranking is the one list of the eligible targets in rank order. */
  lemma RankingIsDetermined(rows: seq<Target>, f: ScopeSelector.Facts, cs: seq<Candidate>)
    requires IdsUnique(rows) && DistinctTimes(rows) && Distinct(cs) && Sorted(cs, RanksBefore)
    requires forall c :: c in cs <==> Eligible(rows, f, c.target) && c == CandidateOf(c.target)
    ensures cs == Ranked(ActiveTargets(rows), f)
  {
    RankingExactly(rows, f);
    RankingIsOrdered(rows, f);
    RanksBeforeIsOrder();
    DistinctPermutation(cs, Ranked(ActiveTargets(rows), f));
    SortedListsAreEqual(cs, Ranked(ActiveTargets(rows), f), RanksBefore);
  }

  /** The candidates whose row is in this table. */
  ghost function StillIn(cs: seq<Candidate>, rows: seq<Target>): (r: seq<Candidate>)
    ensures forall c :: c in r <==> c in cs && c.target in rows
    ensures |r| <= |cs|
  {
    if cs == [] then []
    else
      var most, last := StillIn(cs[..|cs| - 1], rows), cs[|cs| - 1];
      assert cs == cs[..|cs| - 1] + [last];
      if last.target in rows then most + [last] else most
  }

  lemma {:induction false} StillInOrder(cs: seq<Candidate>, rows: seq<Target>)
    requires Distinct(cs) && Sorted(cs, RanksBefore)
    ensures Distinct(StillIn(cs, rows)) && Sorted(StillIn(cs, rows), RanksBefore)
  {
    if cs == [] {
    } else {
      var most, last := cs[..|cs| - 1], cs[|cs| - 1];
      StillInOrder(most, rows);
      forall c | c in StillIn(most, rows) ensures c != last && RanksBefore(c, last) {
        assert c in most;
      }
    }
  }

  lemma {:induction false} StillInBoth(a: seq<Candidate>, b: seq<Candidate>, rows: seq<Target>)
    ensures StillIn(a + b, rows) == StillIn(a, rows) + StillIn(b, rows)
  {
    if b == [] {
      assert a + b == a;
    } else {
      StillInBoth(a, b[..|b| - 1], rows);
      assert (a + b)[..|a + b| - 1] == a + b[..|b| - 1];
    }
  }

  lemma {:induction false} AllStillIn(cs: seq<Candidate>, rows: seq<Target>)
    requires forall c :: c in cs ==> c.target in rows
    ensures StillIn(cs, rows) == cs
  {
    if cs == [] {
    } else {
      AllStillIn(cs[..|cs| - 1], rows);
    }
  }

  /** If none of the quoted targets is lost, the same ones are quoted. */
  lemma QuotedStay(cs: seq<Candidate>, rows: seq<Target>)
    requires forall c :: c in Quoted(cs) ==> c.target in rows
    ensures Quoted(StillIn(cs, rows)) == Quoted(cs)
  {
    var head, rest := Quoted(cs), cs[|Quoted(cs)|..];
    assert cs == head + rest;
    StillInBoth(head, rest, rows);
    AllStillIn(head, rows);
  }

  /** Under ids of their own, candidates that lost a quoted one cannot quote the same. */
  lemma QuotedWereNotLost(cs: seq<Candidate>, rows: seq<Target>)
    requires OwnIds(cs) && MentionsOf(Quoted(StillIn(cs, rows))) == MentionsOf(Quoted(cs))
    ensures forall c :: c in Quoted(cs) ==> c.target in rows
  {
    QuotedAreListed(cs);
    QuotedAreListed(StillIn(cs, rows));
    forall c | c in Quoted(cs) ensures c.target in rows {
      var x := SameMentionAt(Quoted(cs), Quoted(StillIn(cs, rows)), c);
      SameIdSameCandidate(cs, c, x);
    }
  }

  lemma QuotedAreListed(cs: seq<Candidate>)
    ensures forall c :: c in Quoted(cs) ==> c in cs
  {
  }

  lemma SameIdSameCandidate(cs: seq<Candidate>, a: Candidate, b: Candidate)
    requires OwnIds(cs) && a in cs && b in cs && a.target.id == b.target.id
    ensures a == b
  {
  }

  lemma SameMentionAt(xs: seq<Candidate>, ys: seq<Candidate>, c: Candidate) returns (x: Candidate)
    requires MentionsOf(xs) == MentionsOf(ys) && c in xs
    ensures x in ys && MentionOf(x) == MentionOf(c)
  {
    var i :| 0 <= i < |xs| && xs[i] == c;
    assert |ys| == |MentionsOf(ys)| && MentionsOf(xs)[i] == MentionsOf(ys)[i];
    x := ys[i];
  }

  /** The bill of a governed device stays exactly when none of the quoted targets is lost. */
  lemma GovernedBillStaysIff(targets: seq<Target>, other: seq<Target>, cs: seq<Candidate>, rows: seq<Target>, p: bool,
                             q: bool)
    requires OwnIds(cs) && cs != [] && targets != [] && (other == [] ==> StillIn(cs, rows) == [])
    ensures BillFor(targets, cs, p) == BillFor(other, StillIn(cs, rows), q) <==>
            forall c :: c in Quoted(cs) ==> c.target in rows
  {
    var left := StillIn(cs, rows);
    if forall c :: c in Quoted(cs) ==> c.target in rows {
      QuotedStay(cs, rows);
      assert left != [] && left[0] == Quoted(left)[0] == cs[0];
    } else if left != [] {
      QuotedIsHeadAndRest(cs);
      QuotedIsHeadAndRest(left);
      if BillFor(targets, cs, p) == BillFor(other, left, q) {
        MentionsOfHeadAndRest(Quoted(cs), Quoted(left));
        QuotedWereNotLost(cs, rows);
      }
    }
  }

  lemma MentionsOfHeadAndRest(xs: seq<Candidate>, ys: seq<Candidate>)
    requires xs != [] && ys != [] && MentionOf(xs[0]) == MentionOf(ys[0]) && MentionsOf(xs[1..]) == MentionsOf(ys[1..])
    ensures MentionsOf(xs) == MentionsOf(ys)
  {
    assert |xs[1..]| == |MentionsOf(xs[1..])| == |MentionsOf(ys[1..])| == |ys[1..]|;
    forall i | 1 <= i < |xs| ensures MentionOf(xs[i]) == MentionOf(ys[i]) {
      assert MentionsOf(xs[1..])[i - 1] == MentionsOf(ys[1..])[i - 1];
    }
  }

  /** Without a governor, the bill names how many targets there are and whether a tag was out of reach. */
  lemma UnmatchedBillsIff(targets: seq<Target>, other: seq<Target>, f: ScopeSelector.Facts)
    ensures BillFor(targets, [], AnyDefers(targets, f)) == BillFor(other, [], AnyDefers(other, f)) <==>
            |targets| == |other| && AnyDefers(targets, f) == AnyDefers(other, f)
  {
  }
}
