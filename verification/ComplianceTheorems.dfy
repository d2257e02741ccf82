/** Which target wins, what the drift fields say, and how the compliance history grows. */
module ComplianceTheorems {
  import opened Prelude
  import opened Sorting
  import opened CatalogLoader
  import opened CatalogStore
  import opened Prerequisites
  import opened Compliance
  import Readiness
  import ScopeSelector

  // ---- the winner ----------------------------------------------------------

  ghost predicate Beats(w: Target, t: Target) {
    var a, b := ScopeSelector.Specificity(w.body.scope), ScopeSelector.Specificity(t.body.scope);
    a > b || (a == b && w.loadedAt >= t.loadedAt)
  }

  ghost predicate Eligible(rows: seq<Target>, f: ScopeSelector.Facts, t: Target) {
    t in rows && t.live && Governs(t, f)
  }

  lemma {:induction false} CandidatesExactly(targets: seq<Target>, f: ScopeSelector.Facts)
    ensures forall c :: c in Candidates(targets, f) <==>
            c.target in targets && Governs(c.target, f) && c == CandidateOf(c.target)
  {
    if targets == [] {
    } else {
      var most, last := targets[..|targets| - 1], targets[|targets| - 1];
      CandidatesExactly(most, f);
      assert targets == most + [last];
    }
  }

  lemma LastIsOldest(most: seq<Target>, last: Target, t: Target)
    requires Sorted(most + [last], NewerFirst) && t in most
    ensures t.loadedAt >= last.loadedAt
  {
    var i :| 0 <= i < |most| && most[i] == t;
    assert NewerFirst((most + [last])[i], (most + [last])[|most|]);
  }

  lemma {:induction false} CandidatesInOrder(targets: seq<Target>, f: ScopeSelector.Facts)
    requires Sorted(targets, NewerFirst)
    ensures forall i, j :: 0 <= i < j < |Candidates(targets, f)| ==>
              Candidates(targets, f)[i].target.loadedAt >= Candidates(targets, f)[j].target.loadedAt
  {
    if targets == [] {
    } else {
      var most, last := targets[..|targets| - 1], targets[|targets| - 1];
      CandidatesInOrder(most, f);
      CandidatesExactly(most, f);
      assert targets == most + [last];
      forall c | c in Candidates(most, f) ensures c.target.loadedAt >= last.loadedAt {
        LastIsOldest(most, last, c.target);
      }
    }
  }

  lemma TargetsAreOrdered(rows: seq<Target>)
    ensures Sorted(ActiveTargets(rows), NewerFirst)
    ensures forall t :: t in ActiveTargets(rows) <==> t in rows && t.live
  {
    SortSorts(LiveTargets(rows), NewerFirst);
    SortPermutes(LiveTargets(rows), NewerFirst);
  }

  lemma HeadIsBest(cs: seq<Candidate>, c: Candidate)
    requires c in cs
    requires forall i, j :: 0 <= i < j < |cs| ==> cs[i].target.loadedAt >= cs[j].target.loadedAt
    ensures var w := Sort(cs, MoreSpecificFirst)[0];
            w in cs && (w.specificity > c.specificity ||
                        (w.specificity == c.specificity && w.target.loadedAt >= c.target.loadedAt))
  {
    MoreSpecificIsOrder();
    var k := SortHeadIsFirstMinimum(cs, MoreSpecificFirst);
    FirstMinimumIsBest(cs, k, c);
  }

  lemma MoreSpecificIsOrder()
    ensures TotalPreorder(MoreSpecificFirst)
  {
  }

  lemma FirstMinimumIsBest(cs: seq<Candidate>, k: nat, c: Candidate)
    requires FirstMinimum(cs, k, MoreSpecificFirst) && c in cs
    requires forall i, j :: 0 <= i < j < |cs| ==> cs[i].target.loadedAt >= cs[j].target.loadedAt
    ensures cs[k].specificity > c.specificity ||
            (cs[k].specificity == c.specificity && cs[k].target.loadedAt >= c.target.loadedAt)
  {
    var j :| 0 <= j < |cs| && cs[j] == c;
    assert MoreSpecificFirst(cs[k], cs[j]);
    assert j < k ==> !MoreSpecificFirst(cs[j], cs[k]);
  }

  /**
   A target governs the device exactly when some live target matches it; then the winner is live,
   matches, and no live matching target is more specific, nor equally specific and newer.
  */
  lemma WinnerIsBest(rows: seq<Target>, f: ScopeSelector.Facts)
    ensures Winner(rows, f).Some? <==> exists t :: Eligible(rows, f, t)
    ensures Winner(rows, f).Some? ==> Eligible(rows, f, Winner(rows, f).value)
    ensures Winner(rows, f).Some? ==> forall t :: Eligible(rows, f, t) ==> Beats(Winner(rows, f).value, t)
  {
    var active := ActiveTargets(rows);
    var cs := Candidates(active, f);
    TargetsAreOrdered(rows);
    CandidatesExactly(active, f);
    CandidatesInOrder(active, f);
    forall t | Eligible(rows, f, t)
      ensures cs != [] && Winner(rows, f).Some? && Beats(Winner(rows, f).value, t)
    {
      assert t in active && CandidateOf(t) in cs;
      HeadIsBest(cs, CandidateOf(t));
    }
    if cs != [] {
      HeadIsBest(cs, cs[0]);
      assert Eligible(rows, f, cs[0].target);
    }
  }

  /**
   One more leaf that asks for anything wins, of whatever kind, and even against a newer target: the
   wider of two live targets that match a device never governs it.
  */
  lemma OneMoreLeafWins(rows: seq<Target>, f: ScopeSelector.Facts, narrow: Target, wide: Target,
                        before: ScopeSelector.Selector, leaf: ScopeSelector.Leaf, after: ScopeSelector.Selector)
    requires narrow in rows && narrow.live && narrow.body.scope == before + [leaf] + after
    requires wide.body.scope == before + after && ScopeSelector.Asks(leaf)
    requires ScopeSelector.Matches(narrow.body.scope, f)
    ensures Winner(rows, f).Some? && Winner(rows, f).value != wide
  {
    WinnerIsBest(rows, f);
    ScopeSelector.LeafAdds(before, leaf, after);
    assert Eligible(rows, f, narrow) && Beats(Winner(rows, f).value, narrow);
  }

  /** Of two live targets with equally many such leaves, all rows being these two, the newer one governs. */
  lemma NewerTargetWins(f: ScopeSelector.Facts, a: Target, b: Target)
    requires a.live && b.live && a.loadedAt > b.loadedAt
    requires ScopeSelector.Matches(a.body.scope, f) && ScopeSelector.Matches(b.body.scope, f)
    requires ScopeSelector.Specificity(a.body.scope) == ScopeSelector.Specificity(b.body.scope)
    ensures Winner([a, b], f) == Winner([b, a], f) == Some(a)
  {
    WinnerIsBest([a, b], f);
    WinnerIsBest([b, a], f);
    assert Eligible([a, b], f, a) && Eligible([b, a], f, a);
    assert forall t :: Eligible([a, b], f, t) || Eligible([b, a], f, t) ==> t == a || t == b;
  }

  /** The order in which the database returns rows is only open between equal load times. */
  ghost predicate DistinctTimes(rows: seq<Target>) {
    forall s, t :: s in rows && t in rows && s.live && t.live && s.loadedAt == t.loadedAt ==> s == t
  }

  /** Only one eligible target can beat every other. */
  lemma BestIsTheWinner(rows: seq<Target>, f: ScopeSelector.Facts, w: Target)
    requires DistinctTimes(rows) && Eligible(rows, f, w)
    requires forall t :: Eligible(rows, f, t) ==> Beats(w, t)
    ensures Winner(rows, f) == Some(w)
  {
    WinnerIsBest(rows, f);
    var v := Winner(rows, f).value;
    assert Beats(v, w) && Beats(w, v);
  }

  /** With distinct load times the winner does not depend on the order of the table. */
  lemma WinnerIgnoresTableOrder(rows: seq<Target>, other: seq<Target>, f: ScopeSelector.Facts)
    requires DistinctTimes(rows) && multiset(rows) == multiset(other)
    ensures Winner(rows, f) == Winner(other, f)
  {
    SameLength(rows, other);
    WinnerIsBest(rows, f);
    WinnerIsBest(other, f);
    assert forall t :: Eligible(rows, f, t) <==> Eligible(other, f, t);
    if Winner(rows, f).Some? {
      BestIsTheWinner(other, f, Winner(rows, f).value);
    }
  }

  /** The state in terms of the winner and the observed version. */
  lemma StateExactly(rows: seq<Target>, d: Device, observed: Option<string>)
    ensures var a, w := Assess(rows, d, observed), Winner(rows, Readiness.FactsOf(d));
            && a.target == w && a.observed == observed
            && (a.state == Readiness.Classified <==> w.None?)
            && (a.state == Readiness.UnknownFirmware <==> w.Some? && observed.None?)
            && (a.state == Readiness.Compliant <==> w.Some? && observed == Some(w.value.body.targetVersion))
            && (a.state == Readiness.OutsideTarget <==>
                  w.Some? && observed.Some? && observed != Some(w.value.body.targetVersion))
  {
    var targets, facts := ActiveTargets(rows), Readiness.FactsOf(d);
    assert targets == [] ==> Candidates(targets, facts) == [];
    assert targets == [] ==> Ranked(targets, facts) == [];
  }

  // ---- drift ---------------------------------------------------------------

  ghost predicate StrictlyUpstreamFirst(ds: seq<Drift>) {
    forall i, j :: 0 <= i < j < |ds| ==> Precedence(ds[i]) < Precedence(ds[j])
  }

  /** The verdict on a device in this environment. */
  ghost function VerdictOf(env: Env, d: Device): VerdictRow {
    Classify(env, d, AssessIn(env, d))
  }

  lemma FindingsInOrder(env: Env, d: Device, a: Assessment)
    ensures StrictlyUpstreamFirst(DriftsOf(Findings(env, d, a)))
    ensures forall x :: x in DriftsOf(Findings(env, d, a)) ==> x != ExceptionDrift
    ensures a.state == Readiness.Compliant ==> forall x :: x in DriftsOf(Findings(env, d, a)) ==> Soft(x)
  {
    FiredInOrder(CatalogDriftReason(a), RuleDriftReason(env, d, a), PackageDriftReason(env, d, a), TargetDriftReason(a),
                 DiscoveryDriftReason(env, d, a), EvidenceDriftReason(env, d, a));
  }

  lemma FiredInOrder(c: Option<Reason>, r: Option<Reason>, p: Option<Reason>, t: Option<Reason>, o: Option<Reason>,
                     e: Option<Reason>)
    ensures var ds := DriftsOf(Fired(CatalogDrift, c) + Fired(RuleDrift, r) + Fired(PackageDrift, p) +
                               Fired(TargetDrift, t) + Fired(DiscoveryDrift, o) + Fired(EvidenceDrift, e));
            && StrictlyUpstreamFirst(ds)
            && (forall x :: x in ds ==> x != ExceptionDrift)
            && (c.None? && r.None? && p.None? && t.None? ==> forall x :: x in ds ==> Soft(x))
  {
    var s1, s2, s3 := Fired(CatalogDrift, c), Fired(RuleDrift, r), Fired(PackageDrift, p);
    var s4, s5, s6 := Fired(TargetDrift, t), Fired(DiscoveryDrift, o), Fired(EvidenceDrift, e);
    assert [] + s1 == s1;
    NextInOrder([], CatalogDrift, c);
    NextInOrder(s1, RuleDrift, r);
    NextInOrder(s1 + s2, PackageDrift, p);
    NextInOrder(s1 + s2 + s3, TargetDrift, t);
    NextInOrder(s1 + s2 + s3 + s4, DiscoveryDrift, o);
    NextInOrder(s1 + s2 + s3 + s4 + s5, EvidenceDrift, e);
    var ds := DriftsOf(s1 + s2 + s3 + s4 + s5 + s6);
    forall x | x in ds && c.None? && r.None? && p.None? && t.None? ensures Soft(x) {
      FiredExactly(c, r, p, t, o, e, x);
    }
  }

  /** In order, and all more upstream than the precedence `n`. */
  ghost predicate InOrderBelow(fs: seq<Compliance.Finding>, n: nat) {
    StrictlyUpstreamFirst(DriftsOf(fs)) && forall x :: x in DriftsOf(fs) ==> Precedence(x) < n
  }

  lemma NextInOrder(fs: seq<Compliance.Finding>, drift: Drift, reason: Option<Reason>)
    requires InOrderBelow(fs, Precedence(drift))
    ensures InOrderBelow(fs + Fired(drift, reason), Precedence(drift) + 1)
  {
    var ds := DriftsOf(fs);
    if reason.Some? {
      assert DriftsOf(fs + Fired(drift, reason)) == ds + [drift];
      forall i | 0 <= i < |ds| ensures Precedence(ds[i]) < Precedence(drift) {
        assert ds[i] in ds;
      }
    } else {
      assert fs + Fired(drift, reason) == fs;
    }
  }

  lemma {:induction false} PrimaryIsHead(ds: seq<Drift>)
    requires StrictlyUpstreamFirst(ds)
    ensures PrimaryOf(ds) == if ds == [] then None else Some(ds[0])
  {
    if |ds| <= 1 {
      assert ds != [] ==> PrimaryOf(ds[..0]) == None;
    } else {
      PrimaryIsHead(ds[..|ds| - 1]);
    }
  }

  lemma {:induction false} WithoutHead(ds: seq<Drift>)
    requires ds != [] && StrictlyUpstreamFirst(ds)
    ensures Without(ds, ds[0]) == ds[1..]
  {
    if |ds| == 1 {
      assert Without(ds[..0], ds[0]) == [];
    } else {
      var most, last := ds[..|ds| - 1], ds[|ds| - 1];
      WithoutHead(most);
      assert ds[1..] == most[1..] + [last];
    }
  }

  lemma {:induction false} OnlySoftKeepsSoft(ds: seq<Drift>)
    requires forall x :: x in ds ==> Soft(x)
    ensures OnlySoft(ds) == ds
  {
    if ds == [] {
    } else {
      OnlySoftKeepsSoft(ds[..|ds| - 1]);
    }
  }

  lemma DriftSetIsEmitted(env: Env, d: Device, a: Assessment)
    ensures DriftSet(env, d, a) == DriftsOf(Findings(env, d, a))
  {
    var ds := DriftsOf(Findings(env, d, a));
    FindingsInOrder(env, d, a);
    SortPermutes(ds, UpstreamFirst);
    SortSorts(ds, UpstreamFirst);
    SortedListsAreEqual(ds, Sort(ds, UpstreamFirst), UpstreamFirst);
  }

  /** Splitting a strictly ordered drift list keeps everything, when a compliant device only shows soft drifts. */
  lemma SplitKeepsAll(compliant: bool, ds: seq<Drift>)
    requires StrictlyUpstreamFirst(ds) && (compliant ==> forall x :: x in ds ==> Soft(x))
    ensures KeptPrimary(compliant, ds) == PrimaryOf(ds) && KeptSecondary(compliant, ds) == SecondaryOf(ds)
    ensures ds == [] <==> PrimaryOf(ds).None?
    ensures ds != [] ==> ds == [PrimaryOf(ds).value] + SecondaryOf(ds)
  {
    PrimaryIsHead(ds);
    if ds != [] {
      WithoutHead(ds);
      assert ds == [ds[0]] + ds[1..];
      assert ds[0] in ds && forall x :: x in ds[1..] ==> x in ds;
      if compliant {
        OnlySoftKeepsSoft(ds[1..]);
      }
    }
  }

  /**
   The primary drift is the most upstream one that fired, the secondary drifts are all the others
   from upstream to downstream, and nothing fired exactly when there is no primary drift.
  */
  lemma PrimaryIsMostUpstream(env: Env, d: Device, a: Assessment)
    ensures var ds := DriftsOf(Findings(env, d, a)); var row := Classify(env, d, a);
            && (ds == [] <==> row.primary.None?)
            && (row.primary.Some? ==> ds == [row.primary.value] + row.secondary)
            && (row.primary.Some? ==> forall x :: x in row.secondary ==> Precedence(row.primary.value) < Precedence(x))
            && StrictlyUpstreamFirst(row.secondary)
  {
    DriftSetIsEmitted(env, d, a);
    FindingsInOrder(env, d, a);
    OrderedSplit(a.state == Readiness.Compliant, DriftSet(env, d, a));
  }

  lemma OrderedSplit(compliant: bool, ds: seq<Drift>)
    requires StrictlyUpstreamFirst(ds) && (compliant ==> forall x :: x in ds ==> Soft(x))
    ensures var primary, secondary := KeptPrimary(compliant, ds), KeptSecondary(compliant, ds);
            && (ds == [] <==> primary.None?)
            && (primary.Some? ==> ds == [primary.value] + secondary)
            && (primary.Some? ==> forall x :: x in secondary ==> Precedence(primary.value) < Precedence(x))
            && StrictlyUpstreamFirst(secondary)
  {
    SplitKeepsAll(compliant, ds);
    if ds != [] {
      var primary, secondary := PrimaryOf(ds).value, SecondaryOf(ds);
      assert ds[0] == primary;
      forall i | 0 <= i < |secondary|
        ensures secondary[i] == ds[i + 1] && Precedence(primary) < Precedence(secondary[i])
      {
      }
    }
  }

  /** The filter that keeps only soft drifts on a compliant device never has anything to drop. */
  lemma CompliantDropsNothing(env: Env, d: Device, a: Assessment)
    requires a.state == Readiness.Compliant
    ensures Classify(env, d, a).primary == PrimaryOf(DriftSet(env, d, a))
    ensures Classify(env, d, a).secondary == SecondaryOf(DriftSet(env, d, a))
  {
    DriftSetIsEmitted(env, d, a);
    FindingsInOrder(env, d, a);
    SplitKeepsAll(true, DriftSet(env, d, a));
  }

  ghost predicate Fires(env: Env, d: Device, x: Drift) {
    x in DriftsOf(Findings(env, d, AssessIn(env, d)))
  }

  /** Each drift fires exactly under its own condition on winner, catalog, observation and evidence. */
  lemma DriftsFireIff(env: Env, d: Device)
    ensures var a := AssessIn(env, d);
            var outside := a.state == Readiness.OutsideTarget;
            && (Fires(env, d, CatalogDrift) <==> Winner(env.targets, Readiness.FactsOf(d)).None?)
            && (Fires(env, d, TargetDrift) <==> outside)
            && (Fires(env, d, RuleDrift) <==>
                  outside && !SomeEdgeReaches(env.edges, d.facts.platform, a.target.value.body.targetVersion))
            && (Fires(env, d, PackageDrift) <==>
                  outside &&
                  (var p := FindPackage(env, d, a.target.value.body.targetVersion); p.None? || !p.value.blobPresent))
            && (Fires(env, d, DiscoveryDrift) <==>
                  d.id !in env.observed || d.id !in env.latest ||
                  env.latest[d.id].observedAt + env.discoveryStaleDays * SECONDS_PER_DAY < env.now)
            && (Fires(env, d, EvidenceDrift) <==>
                  a.state == Readiness.Compliant &&
                  (d.id !in env.reevaluated ||
                   env.reevaluated[d.id] + env.evidenceStaleDays * SECONDS_PER_DAY < env.now))
            && !Fires(env, d, ExceptionDrift)
  {
    var a := AssessIn(env, d);
    StateExactly(env.targets, d, Lookup(env.observed, d.id));
    assert a.state == Readiness.Classified ==>
             a.reasons[0].kind == EmptyCatalog || a.reasons[0].kind == NoTargetMatched;
    FindingPresent(env, d, a, CatalogDrift);
    FindingPresent(env, d, a, RuleDrift);
    FindingPresent(env, d, a, PackageDrift);
    FindingPresent(env, d, a, TargetDrift);
    FindingPresent(env, d, a, DiscoveryDrift);
    FindingPresent(env, d, a, EvidenceDrift);
    FindingPresent(env, d, a, ExceptionDrift);
  }

  lemma FindingPresent(env: Env, d: Device, a: Assessment, x: Drift)
    ensures x in DriftsOf(Findings(env, d, a)) <==>
            match x
            case CatalogDrift => CatalogDriftReason(a).Some?
            case RuleDrift => RuleDriftReason(env, d, a).Some?
            case PackageDrift => PackageDriftReason(env, d, a).Some?
            case TargetDrift => TargetDriftReason(a).Some?
            case DiscoveryDrift => DiscoveryDriftReason(env, d, a).Some?
            case EvidenceDrift => EvidenceDriftReason(env, d, a).Some?
            case ExceptionDrift => false
  {
    FiredExactly(CatalogDriftReason(a), RuleDriftReason(env, d, a), PackageDriftReason(env, d, a), TargetDriftReason(a),
                 DiscoveryDriftReason(env, d, a), EvidenceDriftReason(env, d, a), x);
  }

  lemma DriftsOfBoth(a: seq<Compliance.Finding>, b: seq<Compliance.Finding>, x: Drift)
    ensures x in DriftsOf(a + b) <==> x in DriftsOf(a) || x in DriftsOf(b)
  {
    assert DriftsOf(a + b) == DriftsOf(a) + DriftsOf(b);
  }

  lemma FiredIs(drift: Drift, reason: Option<Reason>, x: Drift)
    ensures x in DriftsOf(Fired(drift, reason)) <==> x == drift && reason.Some?
  {
    if reason.Some? {
      assert DriftsOf(Fired(drift, reason)) == [drift];
    }
  }

  lemma FiredExactly(c: Option<Reason>, r: Option<Reason>, p: Option<Reason>, t: Option<Reason>, o: Option<Reason>,
                     e: Option<Reason>, x: Drift)
    ensures x in DriftsOf(Fired(CatalogDrift, c) + Fired(RuleDrift, r) + Fired(PackageDrift, p) +
                          Fired(TargetDrift, t) + Fired(DiscoveryDrift, o) + Fired(EvidenceDrift, e)) <==>
            match x
            case CatalogDrift => c.Some?
            case RuleDrift => r.Some?
            case PackageDrift => p.Some?
            case TargetDrift => t.Some?
            case DiscoveryDrift => o.Some?
            case EvidenceDrift => e.Some?
            case ExceptionDrift => false
  {
    var s1, s2, s3 := Fired(CatalogDrift, c), Fired(RuleDrift, r), Fired(PackageDrift, p);
    var s4, s5, s6 := Fired(TargetDrift, t), Fired(DiscoveryDrift, o), Fired(EvidenceDrift, e);
    DriftsOfBoth(s1, s2, x);
    DriftsOfBoth(s1 + s2, s3, x);
    DriftsOfBoth(s1 + s2 + s3, s4, x);
    DriftsOfBoth(s1 + s2 + s3 + s4, s5, x);
    DriftsOfBoth(s1 + s2 + s3 + s4 + s5, s6, x);
    FiredIs(CatalogDrift, c, x);
    FiredIs(RuleDrift, r, x);
    FiredIs(PackageDrift, p, x);
    FiredIs(TargetDrift, t, x);
    FiredIs(DiscoveryDrift, o, x);
    FiredIs(EvidenceDrift, e, x);
  }

  // ---- two catalogs --------------------------------------------------------

  lemma SameMembersSameDrifts(a: seq<Drift>, b: seq<Drift>)
    requires StrictlyUpstreamFirst(a) && StrictlyUpstreamFirst(b) && forall x :: x in a <==> x in b
    ensures a == b
  {
    DistinctPermutation(a, b);
    SortedListsAreEqual(a, b, UpstreamFirst);
  }

  /** Two verdicts with the same state show the same drifts exactly when the same drift rules fired. */
  lemma DriftFieldsAgreeIff(env: Env, later: Env, d: Device)
    requires AssessIn(env, d).state == AssessIn(later, d).state
    ensures var v, w := VerdictOf(env, d), VerdictOf(later, d);
            v.primary == w.primary && v.secondary == w.secondary <==>
            forall x :: Fires(env, d, x) <==> Fires(later, d, x)
  {
    var a := FiredDrifts(env, d);
    var b := FiredDrifts(later, d);
    SplitAgreesIff(AssessIn(env, d).state == Readiness.Compliant, a, b);
  }

  /** The fired drifts in order, and how a verdict splits them. */
  lemma FiredDrifts(env: Env, d: Device) returns (ds: seq<Drift>)
    ensures StrictlyUpstreamFirst(ds) && forall x :: x in ds <==> Fires(env, d, x)
    ensures var compliant := AssessIn(env, d).state == Readiness.Compliant;
            && (compliant ==> forall x :: x in ds ==> Soft(x))
            && VerdictOf(env, d).primary == KeptPrimary(compliant, ds)
            && VerdictOf(env, d).secondary == KeptSecondary(compliant, ds)
  {
    var a := AssessIn(env, d);
    ds := DriftsOf(Findings(env, d, a));
    FindingsInOrder(env, d, a);
    DriftSetIsEmitted(env, d, a);
  }

  lemma SplitAgreesIff(compliant: bool, a: seq<Drift>, b: seq<Drift>)
    requires StrictlyUpstreamFirst(a) && StrictlyUpstreamFirst(b)
    requires compliant ==> (forall x :: x in a ==> Soft(x)) && (forall x :: x in b ==> Soft(x))
    ensures KeptPrimary(compliant, a) == KeptPrimary(compliant, b) &&
            KeptSecondary(compliant, a) == KeptSecondary(compliant, b) <==>
            forall x :: x in a <==> x in b
  {
    OrderedSplit(compliant, a);
    OrderedSplit(compliant, b);
    if forall x :: x in a <==> x in b {
      SameMembersSameDrifts(a, b);
    }
  }

  /** The package of the version is in the catalog and its content is on file. */
  ghost predicate Deliverable(env: Env, d: Device, version: string) {
    var p := FindPackage(env, d, version);
    p.Some? && p.value.blobPresent
  }

  /** Another catalog has an edge to the target version, and delivers it, exactly when this one does. */
  ghost predicate SupplyKept(env: Env, later: Env, d: Device, version: string) {
    && SomeEdgeReaches(env.edges, d.facts.platform, version) == SomeEdgeReaches(later.edges, d.facts.platform, version)
    && Deliverable(env, d, version) == Deliverable(later, d, version)
  }

  /**
   When another catalog leaves a device its state and the version of its target, the same drifts fire
   exactly when the device is not outside its target, or the supply of that version is as it was.
  */
  lemma DriftsKeptIff(env: Env, later: Env, d: Device)
    requires later == env.(targets := later.targets, packages := later.packages, edges := later.edges)
    requires SameStateAndVersion(AssessIn(env, d), AssessIn(later, d))
    ensures (forall x :: Fires(env, d, x) <==> Fires(later, d, x)) <==>
            (AssessIn(env, d).state == Readiness.OutsideTarget ==>
               SupplyKept(env, later, d, AssessIn(env, d).target.value.body.targetVersion))
  {
    var fired, firedLater := FiredSets(env, later, d);
  }

  ghost predicate SameStateAndVersion(a: Assessment, b: Assessment) {
    && a.state == b.state && (a.target.None? <==> b.target.None?)
    && (a.target.Some? ==> a.target.value.body.targetVersion == b.target.value.body.targetVersion)
  }

  lemma FiredSets(env: Env, later: Env, d: Device) returns (fired: set<Drift>, firedLater: set<Drift>)
    requires later == env.(targets := later.targets, packages := later.packages, edges := later.edges)
    requires SameStateAndVersion(AssessIn(env, d), AssessIn(later, d))
    ensures forall x :: x in fired <==> Fires(env, d, x)
    ensures forall x :: x in firedLater <==> Fires(later, d, x)
    ensures AssessIn(env, d).state == Readiness.OutsideTarget ==> AssessIn(env, d).target.Some?
    ensures fired == firedLater <==>
            (AssessIn(env, d).state == Readiness.OutsideTarget ==>
               SupplyKept(env, later, d, AssessIn(env, d).target.value.body.targetVersion))
  {
    fired := FiredSet(env, d);
    firedLater := FiredSet(later, d);
    FiredSetsAgreeIff(env, later, d, AssessIn(env, d), AssessIn(later, d), fired, firedLater);
  }

  lemma FiredSetsAgreeIff(env: Env, later: Env, d: Device, a: Assessment, b: Assessment, fired: set<Drift>,
                          firedLater: set<Drift>)
    requires later == env.(targets := later.targets, packages := later.packages, edges := later.edges)
    requires SameStateAndVersion(a, b) && FireAs(env, d, a, fired) && FireAs(later, d, b, firedLater)
    ensures fired == firedLater <==>
            (a.state == Readiness.OutsideTarget ==> SupplyKept(env, later, d, a.target.value.body.targetVersion))
  {
    SameButTwo(fired, firedLater);
  }

  /** These are the drifts that fire under this assessment. */
  ghost predicate FireAs(env: Env, d: Device, a: Assessment, fired: set<Drift>) {
    var outside := a.state == Readiness.OutsideTarget;
    && (outside ==> a.target.Some?)
    && (CatalogDrift in fired <==> a.target.None?)
    && (TargetDrift in fired <==> outside)
    && (RuleDrift in fired <==>
          outside && !SomeEdgeReaches(env.edges, d.facts.platform, a.target.value.body.targetVersion))
    && (PackageDrift in fired <==> outside && !Deliverable(env, d, a.target.value.body.targetVersion))
    && (DiscoveryDrift in fired <==>
          d.id !in env.observed || d.id !in env.latest ||
          env.latest[d.id].observedAt + env.discoveryStaleDays * SECONDS_PER_DAY < env.now)
    && (EvidenceDrift in fired <==>
          a.state == Readiness.Compliant &&
          (d.id !in env.reevaluated || env.reevaluated[d.id] + env.evidenceStaleDays * SECONDS_PER_DAY < env.now))
    && ExceptionDrift !in fired
  }

  /** The drifts that fire, with the condition of each in terms of the assessment. */
  lemma FiredSet(env: Env, d: Device) returns (fired: set<Drift>)
    ensures forall x :: x in fired <==> Fires(env, d, x)
    ensures FireAs(env, d, AssessIn(env, d), fired)
  {
    StateExactly(env.targets, d, Lookup(env.observed, d.id));
    DriftsFireIff(env, d);
    fired := set x | x in DriftsOf(Findings(env, d, AssessIn(env, d)));
  }

  lemma SameButTwo(a: set<Drift>, b: set<Drift>)
    requires forall x {:trigger x in a} {:trigger x in b} :: x != RuleDrift && x != PackageDrift ==>
               (x in a <==> x in b)
    ensures a == b <==> (RuleDrift in a <==> RuleDrift in b) && (PackageDrift in a <==> PackageDrift in b)
  {
  }

  /** Two verdicts name the same state, drifts, target and versions. */
  ghost predicate Agree(v: VerdictRow, w: VerdictRow) {
    && v.state == w.state && v.primary == w.primary && v.secondary == w.secondary
    && v.targetRef == w.targetRef && v.targetVersion == w.targetVersion && v.observedVersion == w.observedVersion
  }

  ghost function WinnerId(rows: seq<Target>, f: ScopeSelector.Facts): Option<nat> {
    var w := Winner(rows, f);
    if w.Some? then Some(w.value.id) else None
  }

  ghost function WinnerVersion(rows: seq<Target>, f: ScopeSelector.Facts): Option<string> {
    var w := Winner(rows, f);
    if w.Some? then Some(w.value.body.targetVersion) else None
  }

  /** The target fields of a verdict are those of the winner, and the observation does not depend on the catalog. */
  lemma VerdictNamesTheWinner(env: Env, d: Device)
    ensures VerdictOf(env, d).targetRef == WinnerId(env.targets, Readiness.FactsOf(d))
    ensures VerdictOf(env, d).targetVersion == WinnerVersion(env.targets, Readiness.FactsOf(d))
    ensures VerdictOf(env, d).state == AssessIn(env, d).state
    ensures VerdictOf(env, d).observedVersion == Lookup(env.observed, d.id)
  {
    StateExactly(env.targets, d, Lookup(env.observed, d.id));
  }

  lemma SameVersionSameState(env: Env, later: Env, d: Device)
    requires later == env.(targets := later.targets, packages := later.packages, edges := later.edges)
    requires WinnerVersion(env.targets, Readiness.FactsOf(d)) == WinnerVersion(later.targets, Readiness.FactsOf(d))
    ensures SameStateAndVersion(AssessIn(env, d), AssessIn(later, d))
  {
    StateExactly(env.targets, d, Lookup(env.observed, d.id));
    StateExactly(later.targets, d, Lookup(env.observed, d.id));
  }

  /**
   Under another catalog a verdict names the same state, drifts, target and versions exactly when the
   same target governs and asks for the same version and, if the device is outside it, the supply of
   that version is as it was.
  */
  lemma VerdictsAgreeIff(env: Env, later: Env, d: Device)
    requires later == env.(targets := later.targets, packages := later.packages, edges := later.edges)
    ensures var f := Readiness.FactsOf(d);
            Agree(VerdictOf(env, d), VerdictOf(later, d)) <==>
            && WinnerId(env.targets, f) == WinnerId(later.targets, f)
            && WinnerVersion(env.targets, f) == WinnerVersion(later.targets, f)
            && (AssessIn(env, d).state == Readiness.OutsideTarget ==>
                  SupplyKept(env, later, d, AssessIn(env, d).target.value.body.targetVersion))
  {
    VerdictNamesTheWinner(env, d);
    VerdictNamesTheWinner(later, d);
    if WinnerVersion(env.targets, Readiness.FactsOf(d)) == WinnerVersion(later.targets, Readiness.FactsOf(d)) {
      SameVersionSameState(env, later, d);
      DriftFieldsAgreeIff(env, later, d);
      DriftsKeptIff(env, later, d);
    }
  }

  // ---- reasons -------------------------------------------------------------

  ghost predicate ToldOnce(reasons: seq<Reason>) {
    forall i, j :: 0 <= i < j < |reasons| ==> SignatureOf(reasons[i]) != SignatureOf(reasons[j])
  }

  /** Merging keeps what was told, tells every reason, repeats none, and invents none. */
  lemma {:induction false} MergeTellsEachOnce(told: seq<Reason>, more: seq<Reason>)
    requires ToldOnce(told)
    ensures told <= Merge(told, more) && ToldOnce(Merge(told, more))
    ensures forall s :: Told(Merge(told, more), s) <==> Told(told, s) || Told(more, s)
    ensures forall r :: r in Merge(told, more) ==> r in told || r in more
  {
    if more == [] {
    } else {
      var most, last := more[..|more| - 1], more[|more| - 1];
      var before := Merge(told, most);
      MergeTellsEachOnce(told, most);
      TellOneMore(before, last);
      TellOneMore(most, last);
      assert more == most + [last];
      if !Told(before, SignatureOf(last)) {
        assert forall i :: 0 <= i < |before| ==> SignatureOf(before[i]) != SignatureOf(last);
      }
    }
  }

  lemma MismatchReasons(env: Env, d: Device)
    requires AssessIn(env, d).state == Readiness.OutsideTarget
    ensures var a := AssessIn(env, d);
            var s := (VersionMismatch, None, OtherVersion(a.observed.value, a.target.value.body.targetVersion));
            && Told(a.reasons + ReasonsOf(Findings(env, d, a)), s)
            && forall r :: r in a.reasons + ReasonsOf(Findings(env, d, a)) && r.kind == VersionMismatch ==>
              SignatureOf(r) == s
  {
    StateExactly(env.targets, d, Lookup(env.observed, d.id));
    var a := AssessIn(env, d);
    var all := a.reasons + ReasonsOf(Findings(env, d, a));
    var last := |a.reasons| - 1;
    assert all[last] == a.reasons[last] == VersionReason(a.target.value, a.observed);
    forall r | r in all && r.kind == VersionMismatch
      ensures r == Plain(VersionMismatch, OtherVersion(a.observed.value, a.target.value.body.targetVersion))
    {
      if r in a.reasons {
        var i :| 0 <= i < |a.reasons| && a.reasons[i] == r;
        assert i == last;
      } else {
        FindingReasons(env, d, a, r);
      }
    }
  }

  lemma FindingReasons(env: Env, d: Device, a: Assessment, r: Reason)
    requires r in ReasonsOf(Findings(env, d, a)) && r.kind == VersionMismatch
    ensures Some(r) == TargetDriftReason(a)
  {
    var fs := Findings(env, d, a);
    var i :| 0 <= i < |fs| && fs[i].reason == r;
    assert fs[i] in fs;
    CatalogDriftKinds(a.reasons);
  }

  lemma {:induction false} CatalogDriftKinds(reasons: seq<Reason>)
    ensures FirstUnmatched(reasons).Some? ==> FirstUnmatched(reasons).value.kind in {NoTargetMatched, EmptyCatalog}
  {
    if reasons == [] {
    } else {
      CatalogDriftKinds(reasons[1..]);
    }
  }

  /** A device outside its target is told about the version mismatch exactly once, though two rules report it. */
  lemma MismatchIsToldOnce(env: Env, d: Device)
    requires AssessIn(env, d).state == Readiness.OutsideTarget
    ensures var reasons := Classify(env, d, AssessIn(env, d)).reasons;
            exists i :: 0 <= i < |reasons| && reasons[i].kind == VersionMismatch &&
                        forall j :: 0 <= j < |reasons| && reasons[j].kind == VersionMismatch ==> j == i
  {
    var a := AssessIn(env, d);
    var all := a.reasons + ReasonsOf(Findings(env, d, a));
    var reasons := Merge([], all);
    MismatchReasons(env, d);
    MergeTellsEachOnce([], all);
    var s: Signature := (VersionMismatch, None, OtherVersion(a.observed.value, a.target.value.body.targetVersion));
    assert Told(reasons, s);
    var i :| 0 <= i < |reasons| && SignatureOf(reasons[i]) == s;
    forall j | 0 <= j < |reasons| && reasons[j].kind == VersionMismatch ensures j == i {
      assert reasons[j] in all;
    }
  }

  // ---- the history ---------------------------------------------------------

  ghost predicate AdjacentDiffer(rows: seq<VerdictRow>) {
    forall i :: 0 <= i < |rows| - 1 ==> !SameVerdict(rows[i], rows[i + 1])
  }

  ghost predicate HistoriesOk(s: Stored) {
    forall d :: d in s.history ==> AdjacentDiffer(s.history[d])
  }

  datatype Event =
    | Evaluation(env: Env, id: nat)
    | Assessed(env: Env, id: nat)
    | DeviceWritten(id: nat, device: Device)

  /** Evaluations in any environment, interleaved with any other writer of the device row. */
  ghost function After(s: Stored, e: Event): Stored {
    match e
    case Evaluation(env, id) => Evaluated(env, s, id)
    case Assessed(env, id) => Moved(env, s, id)
    case DeviceWritten(id, d) => s.(devices := s.devices[id := d.(id := id)])
  }

  ghost function RunEvents(s: Stored, events: seq<Event>): Stored {
    if events == [] then s else After(RunEvents(s, events[..|events| - 1]), events[|events| - 1])
  }

  lemma MovedKeepsHistory(env: Env, s: Stored, id: nat)
    ensures Moved(env, s, id).history == s.history && Moved(env, s, id).audited == s.audited
    ensures Moved(env, s, id).devices.Keys == s.devices.Keys
  {
  }

  lemma EvaluatedIsRecorded(env: Env, s: Stored, id: nat)
    ensures id in s.devices ==> exists row :: Evaluated(env, s, id) == Recorded(Moved(env, s, id), id, row)
  {
    if id in s.devices {
      var row := Classify(env, s.devices[id], AssessIn(env, s.devices[id]));
      assert Evaluated(env, s, id) == Recorded(Moved(env, s, id), id, row);
    }
  }

  /** One event appends to a history at most, and never the same verdict again. */
  lemma EventKeepsHistories(s: Stored, e: Event)
    ensures HistoriesOk(s) ==> HistoriesOk(After(s, e))
    ensures forall d :: d in s.history ==> d in After(s, e).history && s.history[d] <= After(s, e).history[d]
  {
    match e {
      case Evaluation(env, id) =>
        MovedKeepsHistory(env, s, id);
        EvaluatedIsRecorded(env, s, id);
        if id in s.devices {
          var row :| Evaluated(env, s, id) == Recorded(Moved(env, s, id), id, row);
          RecordingKeepsHistories(Moved(env, s, id), id, row);
        }
      case Assessed(env, id) => MovedKeepsHistory(env, s, id);
      case DeviceWritten(_, _) =>
    }
  }

  lemma RecordingKeepsHistories(s: Stored, id: nat, row: VerdictRow)
    ensures HistoriesOk(s) ==> HistoriesOk(Recorded(s, id, row))
    ensures forall d :: d in s.history ==>
              d in Recorded(s, id, row).history && s.history[d] <= Recorded(s, id, row).history[d]
  {
  }

  /** In any run adjacent verdicts of a device differ in what they say. */
  lemma {:induction false} AdjacentVerdictsDiffer(devices: map<nat, Device>, events: seq<Event>)
    ensures HistoriesOk(RunEvents(Stored(devices, [], map[], []), events))
  {
    var start := Stored(devices, [], map[], []);
    if events == [] {
    } else {
      AdjacentVerdictsDiffer(devices, events[..|events| - 1]);
      EventKeepsHistories(RunEvents(start, events[..|events| - 1]), events[|events| - 1]);
    }
  }

  /** No stored verdict is ever altered or removed. */
  lemma {:induction false} VerdictsAreAppendOnly(s: Stored, events: seq<Event>, d: nat)
    requires d in s.history
    ensures d in RunEvents(s, events).history && s.history[d] <= RunEvents(s, events).history[d]
  {
    if events == [] {
    } else {
      VerdictsAreAppendOnly(s, events[..|events| - 1], d);
      EventKeepsHistories(RunEvents(s, events[..|events| - 1]), events[|events| - 1]);
    }
  }

  /** The row tells the verdict: state, drift, target, versions and reasons, and the actions up to their order. */
  ghost predicate Tells(history: seq<VerdictRow>, row: VerdictRow) {
    && history != []
    && var last := history[|history| - 1];
       && last.state == row.state && last.primary == row.primary && last.secondary == row.secondary
       && last.targetRef == row.targetRef && last.targetVersion == row.targetVersion
       && last.observedVersion == row.observedVersion
       && SameReasons(last.reasons, row.reasons) && multiset(last.actions) == multiset(row.actions)
  }

  lemma RecordedIsLatest(s: Stored, id: nat, row: VerdictRow)
    ensures Tells(HistoryOf(Recorded(s, id, row), id), row)
  {
    var history := HistoryOf(Recorded(s, id, row), id);
    SortPermutes(history[|history| - 1].actions, ByKind);
    SortPermutes(row.actions, ByKind);
  }

  /** After an evaluation the latest row tells the current verdict, whether or not a row was added. */
  lemma LatestVerdictIsCurrent(env: Env, s: Stored, id: nat)
    requires id in s.devices
    ensures Tells(HistoryOf(Evaluated(env, s, id), id), VerdictOf(env, s.devices[id]))
  {
    RecordedIsLatest(Moved(env, s, id), id, VerdictOf(env, s.devices[id]));
  }

  // ---- evaluating twice ----------------------------------------------------

  ghost predicate ScopesIgnoreLifecycle(targets: seq<Target>) {
    forall t :: t in targets ==> ScopeSelector.LifecycleFree(t.body.scope)
  }

  lemma {:induction false} RankingIgnoresLifecycle(targets: seq<Target>, f: ScopeSelector.Facts, state: Option<string>)
    requires ScopesIgnoreLifecycle(targets)
    ensures Candidates(targets, f) == Candidates(targets, f.(lifecycle := state))
    ensures AnyDefers(targets, f) == AnyDefers(targets, f.(lifecycle := state))
  {
    if targets == [] {
    } else {
      RankingIgnoresLifecycle(targets[..|targets| - 1], f, state);
      ScopeSelector.LifecycleIrrelevant(targets[|targets| - 1].body.scope, f, state);
    }
    forall i | 0 <= i < |targets|
      ensures ScopeSelector.Defers(targets[i].body.scope, f) ==
              ScopeSelector.Defers(targets[i].body.scope, f.(lifecycle := state))
    {
      var scope := targets[i].body.scope;
      assert targets[i] in targets;
      assert forall k :: 0 <= k < |scope| ==>
               ScopeSelector.LeafHolds(scope[k], f) == ScopeSelector.LeafHolds(scope[k], f.(lifecycle := state));
    }
  }

  lemma AssessmentIgnoresLifecycle(env: Env, d: Device, state: string)
    requires ScopesIgnoreLifecycle(env.targets)
    ensures AssessIn(env, d) == AssessIn(env, d.(lifecycle := state))
  {
    TargetsAreOrdered(env.targets);
    RankingIgnoresLifecycle(ActiveTargets(env.targets), Readiness.FactsOf(d), Some(state));
    assert Readiness.FactsOf(d.(lifecycle := state)) == Readiness.FactsOf(d).(lifecycle := Some(state));
  }

  /** The device once an evaluation has moved its lifecycle. */
  function Settle(env: Env, d: Device): Device {
    d.(lifecycle := StateName(AssessIn(env, d).state))
  }

  lemma MovingSettles(env: Env, s: Stored, id: nat)
    requires id in s.devices
    ensures Moved(env, s, id).devices == s.devices[id := Settle(env, s.devices[id])]
    ensures Moved(env, s, id).history == s.history
  {
  }

  lemma RecordingIsLocal(s: Stored, id: nat, row: VerdictRow)
    ensures Recorded(s, id, row).devices == s.devices && Recorded(s, id, row).transitions == s.transitions
    ensures forall other :: other != id ==> HistoryOf(Recorded(s, id, row), other) == HistoryOf(s, other)
  {
  }

  lemma SameVerdictIsEquivalence(a: VerdictRow, b: VerdictRow, c: VerdictRow)
    requires Compliance.SameVerdict(a, b)
    ensures Compliance.SameVerdict(a, c) <==> Compliance.SameVerdict(b, c)
  {
  }

  /** A second verdict is silent exactly when it says the same as the first. */
  lemma RecordingAgainIff(s: Stored, id: nat, row: VerdictRow, again: VerdictRow)
    ensures var once := Recorded(s, id, row); Recorded(once, id, again) == once <==> Compliance.SameVerdict(row, again)
  {
    var history := HistoryOf(s, id);
    if Repeats(history, row) {
      SameVerdictIsEquivalence(history[|history| - 1], row, again);
    }
  }

  /** A move that changes anything leaves a transition behind. */
  lemma MovingStaysIff(env: Env, s: Stored, id: nat)
    requires id in s.devices
    ensures Moved(env, s, id) == s <==> s.devices[id].lifecycle == StateName(AssessIn(env, s.devices[id]).state)
    ensures Moved(env, s, id).transitions == s.transitions ==> Moved(env, s, id) == s
  {
  }

  /**
   Evaluating a device again with unchanged inputs at the same clock adds no row, moves nothing and
   writes no audit exactly when the verdict at the lifecycle that the first evaluation left says the
   same as the verdict before it.
  */
  lemma EvaluatingTwiceAddsNothingIff(env: Env, s: Stored, id: nat)
    requires WellKeyed(s.devices) && id in s.devices
    ensures var once, d := Evaluated(env, s, id), s.devices[id];
            Evaluated(env, once, id) == once <==>
            Compliance.SameVerdict(VerdictOf(env, d), VerdictOf(env, Settle(env, d)))
  {
    var d, moved := s.devices[id], Moved(env, s, id);
    MovingSettles(env, s, id);
    RecordingIsLocal(moved, id, VerdictOf(env, d));
    TwiceIff(env, Recorded(moved, id, VerdictOf(env, d)), id, moved, VerdictOf(env, d), AssessIn(env, d).state);
  }

  lemma TwiceIff(env: Env, once: Stored, id: nat, moved: Stored, row: VerdictRow, state: State)
    requires once == Recorded(moved, id, row) && row.state == state
    requires id in once.devices && once.devices[id].lifecycle == StateName(state)
    ensures Evaluated(env, once, id) == once <==> Compliance.SameVerdict(row, VerdictOf(env, once.devices[id]))
  {
    var again := VerdictOf(env, once.devices[id]);
    MovingStaysIff(env, once, id);
    RecordingIsLocal(Moved(env, once, id), id, again);
    RecordingAgainIff(moved, id, row, again);
  }

  /** With scopes that do not read the lifecycle the second evaluation is always silent. */
  lemma EvaluatingTwiceAddsNothing(env: Env, s: Stored, id: nat)
    requires WellKeyed(s.devices) && ScopesIgnoreLifecycle(env.targets)
    ensures var once := Evaluated(env, s, id); Evaluated(env, once, id) == once
  {
    if id in s.devices {
      SettlingKeepsTheVerdict(env, s.devices[id]);
      EvaluatingTwiceAddsNothingIff(env, s, id);
    }
  }

  lemma SettlingKeepsTheVerdict(env: Env, d: Device)
    requires ScopesIgnoreLifecycle(env.targets)
    ensures VerdictOf(env, Settle(env, d)) == VerdictOf(env, d)
    ensures Settle(env, Settle(env, d)) == Settle(env, d)
  {
    var state := StateName(AssessIn(env, d).state);
    AssessmentIgnoresLifecycle(env, d, state);
    ClassifyIgnoresLifecycle(env, d, state, AssessIn(env, d));
  }

  lemma ClassifyIgnoresLifecycle(env: Env, d: Device, state: string, a: Assessment)
    ensures Classify(env, d, a) == Classify(env, d.(lifecycle := state), a)
  {
    var e := d.(lifecycle := state);
    FindingsIgnoreLifecycle(env, d, state, a);
    assert DriftSet(env, d, a) == DriftSet(env, e, a);
  }

  lemma FindingsIgnoreLifecycle(env: Env, d: Device, state: string, a: Assessment)
    ensures Findings(env, d, a) == Findings(env, d.(lifecycle := state), a)
  {
    var e := d.(lifecycle := state);
    assert RuleDriftReason(env, d, a) == RuleDriftReason(env, e, a);
    assert PackageDriftReason(env, d, a) == PackageDriftReason(env, e, a);
    assert DiscoveryDriftReason(env, d, a) == DiscoveryDriftReason(env, e, a);
    assert EvidenceDriftReason(env, d, a) == EvidenceDriftReason(env, e, a);
  }

  // ---- why the restriction on scopes is needed -----------------------------

  ghost function LoopTarget(): Target {
    Row(1, "settle", TargetBody("iosxr", "2", [ScopeSelector.NotInState(["compliant"])], None, None, None),
        "targets/settle.yaml", true, 0)
  }

  ghost function LoopEnv(): Env {
    Env(0, 30, 30, 10, [LoopTarget()], map[], [], map[0 := "2"], map[], map[], (i, p, a, ds) => [])
  }

  ghost function LoopDevice(lifecycle: string): Device {
    Device(0, ScopeSelector.Facts(None, Some("iosxr"), None, None, None, None, None, None), lifecycle, None, None, None)
  }

  lemma LoopAssessment(lifecycle: string)
    ensures AssessIn(LoopEnv(), LoopDevice(lifecycle)).state ==
            if lifecycle == "compliant" then Readiness.Classified else Readiness.Compliant
  {
    var facts := Readiness.FactsOf(LoopDevice(lifecycle));
    StateExactly([LoopTarget()], LoopDevice(lifecycle), Some("2"));
    WinnerIsBest([LoopTarget()], facts);
    var leaf := ScopeSelector.NotInState(["compliant"]);
    assert ScopeSelector.LeafHolds(leaf, facts) <==> lifecycle !in ["compliant"];
    assert Governs(LoopTarget(), facts) <==> ScopeSelector.LeafHolds(leaf, facts);
    assert Eligible([LoopTarget()], facts, LoopTarget()) <==> lifecycle != "compliant";
  }

  ghost function Repeated(n: nat): Stored {
    if n == 0 then Stored(map[0 := LoopDevice("classified")], [], map[], [])
    else Evaluated(LoopEnv(), Repeated(n - 1), 0)
  }

  ghost function LoopState(n: nat): string {
    if n % 2 == 0 then "classified" else "compliant"
  }

  lemma RecordingNews(s: Stored, id: nat, row: VerdictRow)
    requires HistoryOf(s, id) != [] ==> HistoryOf(s, id)[|HistoryOf(s, id)| - 1].state != row.state
    ensures HistoryOf(Recorded(s, id, row), id) == HistoryOf(s, id) + [row]
    ensures Recorded(s, id, row).devices == s.devices && Recorded(s, id, row).transitions == s.transitions
    ensures |Recorded(s, id, row).audited| == |s.audited| + 1
  {
  }

  lemma LoopMoves(s: Stored, k: nat)
    requires s.devices == map[0 := LoopDevice(LoopState(k))]
    ensures StateName(AssessIn(LoopEnv(), s.devices[0]).state) == LoopState(k + 1)
    ensures Moved(LoopEnv(), s, 0).devices == map[0 := LoopDevice(LoopState(k + 1))]
    ensures |Moved(LoopEnv(), s, 0).transitions| == |s.transitions| + 1
  {
    LoopAssessment(LoopState(k));
    assert "classified"[1] != "compliant"[1];
  }

  lemma EvaluatedInParts(env: Env, s: Stored, id: nat) returns (row: VerdictRow)
    requires id in s.devices
    ensures Evaluated(env, s, id) == Recorded(Moved(env, s, id), id, row)
    ensures row.state == AssessIn(env, s.devices[id]).state
  {
    row := Classify(env, s.devices[id], AssessIn(env, s.devices[id]));
  }

  ghost predicate Alternating(s: Stored, n: nat) {
    && s.devices == map[0 := LoopDevice(LoopState(n))]
    && |HistoryOf(s, 0)| == n == |s.audited| == |s.transitions|
    && (n > 0 ==> StateName(HistoryOf(s, 0)[n - 1].state) == LoopState(n))
  }

  lemma AlternatingStep(s: Stored, moved: Stored, row: VerdictRow, k: nat)
    requires Alternating(s, k)
    requires moved.history == s.history && moved.audited == s.audited && |moved.transitions| == |s.transitions| + 1
    requires moved.devices == map[0 := LoopDevice(LoopState(k + 1))] && StateName(row.state) == LoopState(k + 1)
    ensures Alternating(Recorded(moved, 0, row), k + 1)
  {
    assert "classified"[1] != "compliant"[1];
    RecordingNews(moved, 0, row);
  }

  lemma LoopStep(env: Env, s: Stored, k: nat)
    requires Alternating(s, k) && env == LoopEnv()
    ensures Alternating(Evaluated(env, s, 0), k + 1)
  {
    LoopMoves(s, k);
    MovedKeepsHistory(env, s, 0);
    var row := EvaluatedInParts(env, s, 0);
    AlternatingStep(s, Moved(env, s, 0), row, k);
  }

  /**
   A target scoped to devices that are not yet compliant undoes its own verdict: with nothing else
   changing, every single evaluation moves the lifecycle back or forth and stores one more row.
  */
  lemma {:induction false} StateScopeNeverSettles(n: nat)
    ensures Alternating(Repeated(n), n)
  {
    if n > 0 {
      StateScopeNeverSettles(n - 1);
      LoopStep(LoopEnv(), Repeated(n - 1), n - 1);
    }
  }
}
