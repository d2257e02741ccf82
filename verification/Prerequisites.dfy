/**
 The nine prerequisite predicates, each turning one catalog rule and one device into a blocker or
 nothing, and the canonical order of blockers.
*/
module Prerequisites {
  import opened Prelude
  import opened Sorting
  import ScopeSelector

  datatype Severity = Required | Recommended

  /** In the canonical order of blockers, most important first. */
  datatype BlockerKind =
    | MinRamMb | MinDiskMb | HardwareRevisionIn | MinCurrentVersion | IntermediateVersionRequired
    | MissingUpgradePath | LicensePresent | NotInState | RegionIn | MissingObservationField | TaggedWith

  datatype Predicate =
    | RamAtLeast(minMb: int)
    | DiskAtLeast(minMb: int)
    | VersionAtLeast(minVersion: string)
    | RevisionAmong(revisions: seq<string>)
    | HasLicense(license: string)
    | GoesVia(viaVersion: string)
    | StateNotAmong(states: seq<string>)
    | RegionAmong(regions: seq<string>)
    | HasTags(tags: seq<string>)

  datatype Rule = Rule(id: nat, name: string, live: bool, evaluable: bool,
                       appliesTo: ScopeSelector.Selector, predicate_: Predicate, severity: Severity)

  datatype Device = Device(
    id: nat, facts: ScopeSelector.Facts, lifecycle: string, ramMb: Option<int>, diskMb: Option<int>,
    licenses: Option<seq<string>>)

  /** The structured pair of required and observed values, together with what the detail text quotes. */
  datatype Finding =
    | FieldMissing(field: string, ruleName: string, wanted: Predicate)
    | RamTooSmall(ram: int, minMb: int, ruleName: string)
    | DiskTooSmall(disk: int, minMb: int, ruleName: string)
    | VersionTooOld(observed: string, minVersion: string)
    | RevisionNotAllowed(revision: string, revisions: seq<string>)
    | LicenseMissing(license: string, licenses: seq<string>)
    | HopRecommended(viaVersion: string, current: Option<string>, ruleName: string)
    | StateForbidden(state: string, states: seq<string>)
    | RegionNotAllowed(region: string, regions: seq<string>)
    | TagsUnknown(wantedTags: seq<string>, ruleName: string)
    | TagsMissing(wantedTags: seq<string>, have: seq<string>, missing: seq<string>)
    | NoChain(target: string, platform: Option<string>, from: Option<string>, cap: nat)

  datatype Blocker = Blocker(ruleId: Option<nat>, ruleName: Option<string>, kind: BlockerKind,
                             severity: Severity, finding: Finding)

  // ---- text ----------------------------------------------------------------

  /** Code-point order of strings; versions are compared this way, not numerically. */
  predicate TextLess(a: string, b: string) {
    b != [] && (a == [] || a[0] < b[0] || (a[0] == b[0] && TextLess(a[1..], b[1..])))
  }

  /** White space as the text functions of the source language see it. */
  predicate IsSpace(c: char) {
    || '\U{0009}' <= c <= '\U{000D}' || '\U{001C}' <= c <= ' '
    || c == '\U{0085}' || c == '\U{00A0}' || c == '\U{1680}' || '\U{2000}' <= c <= '\U{200A}'
    || c == '\U{2028}' || c == '\U{2029}' || c == '\U{202F}' || c == '\U{205F}' || c == '\U{3000}'
  }

  function Strip(s: string): (r: string)
    ensures r != [] ==> !IsSpace(r[0]) && !IsSpace(r[|r| - 1])
  {
    if s != [] && IsSpace(s[0]) then Strip(s[1..])
    else if s != [] && IsSpace(s[|s| - 1]) then Strip(s[..|s| - 1])
    else s
  }

  function WantedTags(tags: seq<string>): (r: seq<string>)
    ensures forall i :: 0 <= i < |r| ==> r[i] != []
  {
    if tags == [] then []
    else WantedTags(tags[..|tags| - 1]) +
         (if Strip(tags[|tags| - 1]) != [] then [Strip(tags[|tags| - 1])] else [])
  }

  predicate Carries(have: seq<string>, tag: string) {
    exists j :: 0 <= j < |have| && Lower(have[j]) == Lower(tag)
  }

  function MissingTags(wanted: seq<string>, have: seq<string>): (r: seq<string>)
    ensures r == [] <==> forall i :: 0 <= i < |wanted| ==> Carries(have, wanted[i])
  {
    if wanted == [] then []
    else MissingTags(wanted[..|wanted| - 1], have) +
         (if Carries(have, wanted[|wanted| - 1]) then [] else [wanted[|wanted| - 1]])
  }

  // ---- the predicates ------------------------------------------------------

  function Cite(rule: Rule, kind: BlockerKind, finding: Finding, severity: Severity): Blocker {
    Blocker(Some(rule.id), Some(rule.name), kind, severity, finding)
  }

  function Missing(rule: Rule, field: string): Option<Blocker> {
    Some(Cite(rule, MissingObservationField, FieldMissing(field, rule.name, rule.predicate_), Required))
  }

  /** One rule against one device and its last observed firmware. */
  function EvaluateRule(rule: Rule, d: Device, observed: Option<string>): (r: Option<Blocker>)
    ensures r.Some? ==> r.value.ruleId == Some(rule.id) && r.value.kind != MissingUpgradePath
    ensures r.Some? && r.value.severity == Required <==> HardBlocks(rule, d, observed)
    ensures r.None? <==> Satisfied(rule.predicate_, d, observed)
  {
    match rule.predicate_
    case RamAtLeast(mb) =>
      if d.ramMb.None? then Missing(rule, "ram_mb")
      else if d.ramMb.value < mb
      then Some(Cite(rule, MinRamMb, RamTooSmall(d.ramMb.value, mb, rule.name), rule.severity)) else None
    case DiskAtLeast(mb) =>
      if d.diskMb.None? then Missing(rule, "disk_mb")
      else if d.diskMb.value < mb
      then Some(Cite(rule, MinDiskMb, DiskTooSmall(d.diskMb.value, mb, rule.name), rule.severity)) else None
    case VersionAtLeast(v) =>
      if observed.None? then Missing(rule, "observed_firmware")
      else if TextLess(observed.value, v)
      then Some(Cite(rule, MinCurrentVersion, VersionTooOld(observed.value, v), rule.severity)) else None
    case RevisionAmong(revisions) =>
      if d.facts.hardwareRevision.None? then Missing(rule, "hardware_revision")
      else if d.facts.hardwareRevision.value !in revisions
      then Some(Cite(rule, HardwareRevisionIn, RevisionNotAllowed(d.facts.hardwareRevision.value, revisions),
                     rule.severity))
      else None
    case HasLicense(license) =>
      if d.licenses.None? then Missing(rule, "licenses")
      else if license !in d.licenses.value
      then Some(Cite(rule, LicensePresent, LicenseMissing(license, d.licenses.value), rule.severity)) else None
    case GoesVia(via) =>
      Some(Cite(rule, IntermediateVersionRequired, HopRecommended(via, observed, rule.name), Recommended))
    case StateNotAmong(states) =>
      if d.lifecycle in states
      then Some(Cite(rule, NotInState, StateForbidden(d.lifecycle, states), rule.severity)) else None
    case RegionAmong(regions) =>
      if d.facts.region.None? then Missing(rule, "region")
      else if d.facts.region.value !in regions
      then Some(Cite(rule, RegionIn, RegionNotAllowed(d.facts.region.value, regions), rule.severity)) else None
    case HasTags(tags) =>
      var wanted := WantedTags(tags);
      if wanted == [] then None
      else if d.facts.tags.None? then Some(Cite(rule, TaggedWith, TagsUnknown(wanted, rule.name), Recommended))
      else
        var missing := MissingTags(wanted, d.facts.tags.value);
        if missing == [] then None
        else Some(Cite(rule, TaggedWith, TagsMissing(wanted, d.facts.tags.value, missing), rule.severity))
  }

  /** What the rule asks for holds of the device; an unknown input never satisfies it. */
  ghost predicate Satisfied(p: Predicate, d: Device, observed: Option<string>) {
    match p
    case RamAtLeast(mb) => d.ramMb.Some? && d.ramMb.value >= mb
    case DiskAtLeast(mb) => d.diskMb.Some? && d.diskMb.value >= mb
    case VersionAtLeast(v) => observed.Some? && !TextLess(observed.value, v)
    case RevisionAmong(rs) => d.facts.hardwareRevision.Some? && d.facts.hardwareRevision.value in rs
    case HasLicense(l) => d.licenses.Some? && l in d.licenses.value
    case GoesVia(_) => false
    case StateNotAmong(states) => d.lifecycle !in states
    case RegionAmong(rs) => d.facts.region.Some? && d.facts.region.value in rs
    case HasTags(tags) =>
      WantedTags(tags) == [] ||
      (d.facts.tags.Some? &&
       forall i :: 0 <= i < |WantedTags(tags)| ==> Carries(d.facts.tags.value, WantedTags(tags)[i]))
  }

  ghost predicate InputKnown(p: Predicate, d: Device, observed: Option<string>) {
    match p
    case RamAtLeast(_) => d.ramMb.Some?
    case DiskAtLeast(_) => d.diskMb.Some?
    case VersionAtLeast(_) => observed.Some?
    case RevisionAmong(_) => d.facts.hardwareRevision.Some?
    case HasLicense(_) => d.licenses.Some?
    case RegionAmong(_) => d.facts.region.Some?
    case HasTags(_) => d.facts.tags.Some?
    case _ => true
  }

  /**
   The rule stops an upgrade: it is not satisfied, and either an input other than the tags is
   unknown, or the catalog declares the rule required. Intermediate hops and unknown tags only advise.
  */
  ghost predicate HardBlocks(rule: Rule, d: Device, observed: Option<string>) {
    && !Satisfied(rule.predicate_, d, observed)
    && !rule.predicate_.GoesVia?
    && (if InputKnown(rule.predicate_, d, observed) then rule.severity == Required else !rule.predicate_.HasTags?)
  }

  /** The blocker cites the rule for this reason. */
  predicate Says(b: Option<Blocker>, rule: Rule, kind: BlockerKind, severity: Severity, finding: Finding) {
    b == Some(Blocker(Some(rule.id), Some(rule.name), kind, severity, finding))
  }

  /** The field that the rule reads is empty, which always stops the device. */
  predicate SaysMissing(b: Option<Blocker>, rule: Rule, field: string) {
    Says(b, rule, MissingObservationField, Required, FieldMissing(field, rule.name, rule.predicate_))
  }

  /**
   What each of the nine predicates says about a device: when it is content, and otherwise which kind
   of blocker it raises, how severe, and what it found. An intermediate hop is always advised, unknown
   tags too, and any other unknown input is a missing field.
  */
  lemma RuleSaysWhy(rule: Rule, d: Device, observed: Option<string>)
    ensures var b, severity := EvaluateRule(rule, d, observed), rule.severity;
            match rule.predicate_
            case RamAtLeast(mb) =>
              (match d.ramMb
               case None => SaysMissing(b, rule, "ram_mb")
               case Some(ram) => if ram >= mb then b == None
                                 else Says(b, rule, MinRamMb, severity, RamTooSmall(ram, mb, rule.name)))
            case DiskAtLeast(mb) =>
              (match d.diskMb
               case None => SaysMissing(b, rule, "disk_mb")
               case Some(disk) => if disk >= mb then b == None
                                  else Says(b, rule, MinDiskMb, severity, DiskTooSmall(disk, mb, rule.name)))
            case VersionAtLeast(v) =>
              (match observed
               case None => SaysMissing(b, rule, "observed_firmware")
               case Some(have) => if !TextLess(have, v) then b == None
                                  else Says(b, rule, MinCurrentVersion, severity, VersionTooOld(have, v)))
            case RevisionAmong(revisions) =>
              (match d.facts.hardwareRevision
               case None => SaysMissing(b, rule, "hardware_revision")
               case Some(have) => if have in revisions then b == None
                                  else Says(b, rule, HardwareRevisionIn, severity, RevisionNotAllowed(have, revisions)))
            case HasLicense(license) =>
              (match d.licenses
               case None => SaysMissing(b, rule, "licenses")
               case Some(have) => if license in have then b == None
                                  else Says(b, rule, LicensePresent, severity, LicenseMissing(license, have)))
            case GoesVia(via) =>
              Says(b, rule, IntermediateVersionRequired, Recommended, HopRecommended(via, observed, rule.name))
            case StateNotAmong(states) =>
              if d.lifecycle !in states then b == None
              else Says(b, rule, NotInState, severity, StateForbidden(d.lifecycle, states))
            case RegionAmong(regions) =>
              (match d.facts.region
               case None => SaysMissing(b, rule, "region")
               case Some(have) => if have in regions then b == None
                                  else Says(b, rule, RegionIn, severity, RegionNotAllowed(have, regions)))
            case HasTags(tags) => TagRuleSays(b, rule, tags, d.facts.tags)
  {
    if rule.predicate_.HasTags? {
      TagRuleSaysWhy(rule, d, observed, rule.predicate_.tags);
    }
  }

  /** A tag rule without any tag but blank ones is content, and so is one whose tags the device carries, in any case. */
  ghost predicate TagRuleSays(b: Option<Blocker>, rule: Rule, tags: seq<string>, have: Option<seq<string>>) {
    var wanted := WantedTags(tags);
    if forall tag :: tag in tags ==> Blank(tag) then b == None
    else if have.None? then Says(b, rule, TaggedWith, Recommended, TagsUnknown(wanted, rule.name))
    else if forall tag :: tag in wanted ==> exists t :: t in have.value && Lower(t) == Lower(tag) then b == None
    else Says(b, rule, TaggedWith, rule.severity, TagsMissing(wanted, have.value, MissingTags(wanted, have.value)))
  }

  lemma TagRuleSaysWhy(rule: Rule, d: Device, observed: Option<string>, tags: seq<string>)
    requires rule.predicate_ == HasTags(tags)
    ensures TagRuleSays(EvaluateRule(rule, d, observed), rule, tags, d.facts.tags)
  {
    NothingWantedIff(tags);
    if d.facts.tags.Some? {
      AllCarriedIff(WantedTags(tags), d.facts.tags.value);
    }
  }

  lemma NothingWantedIff(tags: seq<string>)
    ensures WantedTags(tags) == [] <==> forall tag :: tag in tags ==> Blank(tag)
  {
    WantedExactly(tags);
    if WantedTags(tags) != [] {
      assert WantedTags(tags)[0] in WantedTags(tags);
    }
    if tag :| tag in tags && !Blank(tag) {
      assert Strip(tag) in WantedTags(tags);
    }
  }

  lemma AllCarriedIff(wanted: seq<string>, have: seq<string>)
    ensures MissingTags(wanted, have) == [] <==>
            forall tag :: tag in wanted ==> exists t :: t in have && Lower(t) == Lower(tag)
  {
    forall tag ensures Carries(have, tag) <==> exists t :: t in have && Lower(t) == Lower(tag) {
      if t :| t in have && Lower(t) == Lower(tag) {
        var j :| 0 <= j < |have| && have[j] == t;
      }
      if j :| 0 <= j < |have| && Lower(have[j]) == Lower(tag) {
        assert have[j] in have;
      }
    }
    assert (forall tag :: tag in wanted ==> Carries(have, tag)) <==>
           forall i :: 0 <= i < |wanted| ==> Carries(have, wanted[i]);
  }

  /** Nothing but white space. */
  predicate Blank(s: string) {
    forall c :: c in s ==> IsSpace(c)
  }

  /** White space is what these code points stand for. */
  lemma SpacesExactly(c: char)
    ensures IsSpace(c) <==>
            || 9 <= c as int <= 13 || 28 <= c as int <= 32 || 0x2000 <= c as int <= 0x200A
            || c as int in {0x85, 0xA0, 0x1680, 0x2028, 0x2029, 0x202F, 0x205F, 0x3000}
  {
  }

  /** White space around the text, and nothing else. */
  ghost predicate Padded(s: string, text: string) {
    exists before, after :: s == before + text + after && Blank(before) && Blank(after)
  }

  lemma PaddedMore(s: string, text: string, before: string, after: string)
    requires Padded(s, text) && Blank(before) && Blank(after)
    ensures Padded(before + s + after, text)
  {
    var b, a :| s == b + text + a && Blank(b) && Blank(a);
    assert before + s + after == (before + b) + text + (a + after);
    assert Blank(before + b) && Blank(a + after);
  }

  lemma BlankConcat(a: string, b: string)
    ensures Blank(a + b) <==> Blank(a) && Blank(b)
  {
    forall c ensures c in a + b <==> c in a || c in b {
    }
  }

  /** Stripping takes white space off both ends and nothing else. */
  lemma {:induction false} StripUnpads(s: string)
    ensures Padded(s, Strip(s))
  {
    if s != "" && IsSpace(s[0]) {
      StripUnpads(s[1..]);
      PaddedMore(s[1..], Strip(s), [s[0]], "");
      assert s == [s[0]] + s[1..] + "";
    } else if s != "" && IsSpace(s[|s| - 1]) {
      StripUnpads(s[..|s| - 1]);
      PaddedMore(s[..|s| - 1], Strip(s), "", [s[|s| - 1]]);
      assert s == "" + s[..|s| - 1] + [s[|s| - 1]];
    } else {
      assert s == "" + s + "" && Blank("");
    }
  }

  /** Stripping leaves nothing of a blank text and something of any other. */
  lemma {:induction false} StripEmptiesIff(s: string)
    ensures Strip(s) == "" <==> Blank(s)
  {
    if s != "" && IsSpace(s[0]) {
      StripEmptiesIff(s[1..]);
      BlankConcat([s[0]], s[1..]);
      assert s == [s[0]] + s[1..];
    } else if s != "" && IsSpace(s[|s| - 1]) {
      StripEmptiesIff(s[..|s| - 1]);
      BlankConcat(s[..|s| - 1], [s[|s| - 1]]);
      assert s == s[..|s| - 1] + [s[|s| - 1]];
    } else if s != "" {
      assert s[0] in s;
    }
  }

  /** The wanted tags are the listed ones, stripped, without the blank ones. */
  lemma {:induction false} WantedExactly(tags: seq<string>)
    ensures forall w :: w in WantedTags(tags) <==> exists tag :: tag in tags && w == Strip(tag) && !Blank(tag)
  {
    if tags == [] {
    } else {
      var most, last := tags[..|tags| - 1], tags[|tags| - 1];
      WantedExactly(most);
      StripEmptiesIff(last);
      assert tags == most + [last];
    }
  }

  /** The missing tags are the wanted ones that the device does not carry, in their order. */
  lemma {:induction false} MissingExactly(wanted: seq<string>, have: seq<string>)
    ensures forall w :: w in MissingTags(wanted, have) <==> w in wanted && !Carries(have, w)
  {
    if wanted == [] {
    } else {
      var most, last := wanted[..|wanted| - 1], wanted[|wanted| - 1];
      MissingExactly(most, have);
      assert wanted == most + [last];
    }
  }

  /** Of two texts one is below the other, unless they are equal. */
  lemma {:induction false} TextsCompare(a: string, b: string)
    ensures TextLess(a, b) || a == b || TextLess(b, a)
    ensures !(TextLess(a, b) && TextLess(b, a)) && !TextLess(a, a)
  {
    if a != [] {
      TextsCompare(a[1..], a[1..]);
    }
    if a != [] && b != [] {
      TextsCompare(a[1..], b[1..]);
      assert a[0] == b[0] && a[1..] == b[1..] ==> a == b by {
        assert a == [a[0]] + a[1..] && b == [b[0]] + b[1..];
      }
    }
  }

  lemma {:induction false} TextOrderIsTransitive(a: string, b: string, c: string)
    requires TextLess(a, b) && TextLess(b, c)
    ensures TextLess(a, c)
  {
    if a != [] && a[0] == b[0] == c[0] {
      TextOrderIsTransitive(a[1..], b[1..], c[1..]);
    }
  }

  /** Code-point order: one text is below another if it ends first, or is smaller, at the first difference. */
  lemma {:induction false} TextLessExactly(a: string, b: string)
    ensures TextLess(a, b) <==>
            exists k :: 0 <= k <= |a| && k < |b| && a[..k] == b[..k] && (k == |a| || a[k] < b[k])
  {
    if b != [] && a != [] && a[0] == b[0] {
      TextLessExactly(a[1..], b[1..]);
      if TextLess(a[1..], b[1..]) {
        var k :| 0 <= k <= |a[1..]| && k < |b[1..]| && a[1..][..k] == b[1..][..k] &&
                 (k == |a[1..]| || a[1..][k] < b[1..][k]);
        assert a[..k + 1] == [a[0]] + a[1..][..k] && b[..k + 1] == [b[0]] + b[1..][..k];
      }
      if k :| 0 <= k <= |a| && k < |b| && a[..k] == b[..k] && (k == |a| || a[k] < b[k]) {
        assert k > 0;
        assert a[1..][..k - 1] == a[..k][1..] && b[1..][..k - 1] == b[..k][1..];
      }
    } else if b != [] {
      assert a[..0] == b[..0];
      assert forall k :: 0 < k <= |a| && k <= |b| && a[..k] == b[..k] ==> a[..k][0] == b[..k][0];
    }
  }

  /** The rule loop of the readiness controller. */
  function RawBlockers(rules: seq<Rule>, d: Device, observed: Option<string>): seq<Blocker> {
    if rules == [] then []
    else
      var most, b := RawBlockers(rules[..|rules| - 1], d, observed), EvaluateRule(rules[|rules| - 1], d, observed);
      if b.Some? then most + [b.value] else most
  }

  lemma {:induction false} RawBlockersExactly(rules: seq<Rule>, d: Device, observed: Option<string>)
    ensures forall b :: b in RawBlockers(rules, d, observed) <==>
                        exists r :: r in rules && EvaluateRule(r, d, observed) == Some(b)
    ensures |RawBlockers(rules, d, observed)| <= |rules|
  {
    if rules == [] {
    } else {
      RawBlockersExactly(rules[..|rules| - 1], d, observed);
      assert rules == rules[..|rules| - 1] + [rules[|rules| - 1]];
    }
  }

  // ---- canonical order -----------------------------------------------------

  function KindIndex(k: BlockerKind): nat {
    match k
    case MinRamMb => 0
    case MinDiskMb => 1
    case HardwareRevisionIn => 2
    case MinCurrentVersion => 3
    case IntermediateVersionRequired => 4
    case MissingUpgradePath => 5
    case LicensePresent => 6
    case NotInState => 7
    case RegionIn => 8
    case MissingObservationField => 9
    case TaggedWith => 10
  }

  function SeverityRank(s: Severity): nat {
    if s == Required then 0 else 1
  }

  /** A synthetic blocker cites no rule and comes first within its kind. */
  function RuleRank(id: Option<nat>): nat {
    if id.None? then 0 else id.value + 1
  }

  predicate Before(a: Blocker, b: Blocker) {
    || SeverityRank(a.severity) < SeverityRank(b.severity)
    || (a.severity == b.severity &&
        (KindIndex(a.kind) < KindIndex(b.kind) ||
         (a.kind == b.kind && RuleRank(a.ruleId) <= RuleRank(b.ruleId))))
  }

  function SortBlockers(bs: seq<Blocker>): (r: seq<Blocker>)
    ensures |r| == |bs|
  {
    Sort(bs, Before)
  }

  lemma BeforeIsOrder()
    ensures TotalPreorder(Before)
    ensures forall a, b :: Before(a, b) && Before(b, a) ==>
              a.severity == b.severity && a.kind == b.kind && a.ruleId == b.ruleId
  {
  }

  /** The kinds from the most to the least important. */
  const KINDS_IN_ORDER: seq<BlockerKind> :=
    [MinRamMb, MinDiskMb, HardwareRevisionIn, MinCurrentVersion, IntermediateVersionRequired, MissingUpgradePath,
     LicensePresent, NotInState, RegionIn, MissingObservationField, TaggedWith]

  /** Required ones first, then by kind, then by rule, the one without a rule ahead. */
  ghost predicate InOrder(a: Blocker, b: Blocker) {
    if a.severity != b.severity then a.severity == Required
    else if a.kind != b.kind then
      exists p, q :: 0 <= p < q < |KINDS_IN_ORDER| && KINDS_IN_ORDER[p] == a.kind && KINDS_IN_ORDER[q] == b.kind
    else a.ruleId.None? || (b.ruleId.Some? && a.ruleId.value <= b.ruleId.value)
  }

  lemma KindsAreIndexed()
    ensures |KINDS_IN_ORDER| == 11
    ensures forall k :: KindIndex(k) < 11 && KINDS_IN_ORDER[KindIndex(k)] == k
    ensures forall p :: 0 <= p < 11 ==> KindIndex(KINDS_IN_ORDER[p]) == p
  {
    forall k: BlockerKind ensures KindIndex(k) < 11 && KINDS_IN_ORDER[KindIndex(k)] == k {
    }
  }

  lemma BeforeIsInOrder(a: Blocker, b: Blocker)
    ensures Before(a, b) <==> InOrder(a, b)
  {
    KindsAreIndexed();
    assert KINDS_IN_ORDER[KindIndex(a.kind)] == a.kind && KINDS_IN_ORDER[KindIndex(b.kind)] == b.kind;
  }

  /** The sorted list holds what was raised, each as often, in the canonical order. */
  lemma SortedInOrder(bs: seq<Blocker>)
    ensures multiset(SortBlockers(bs)) == multiset(bs)
    ensures forall i, j :: 0 <= i < j < |SortBlockers(bs)| ==> InOrder(SortBlockers(bs)[i], SortBlockers(bs)[j])
  {
    BeforeIsOrder();
    SortSorts(bs, Before);
    SortPermutes(bs, Before);
    forall i, j | 0 <= i < j < |SortBlockers(bs)| ensures InOrder(SortBlockers(bs)[i], SortBlockers(bs)[j]) {
      BeforeIsInOrder(SortBlockers(bs)[i], SortBlockers(bs)[j]);
    }
  }

  ghost predicate DistinctIds(rules: seq<Rule>) {
    forall i, j :: 0 <= i < j < |rules| ==> rules[i].id != rules[j].id
  }

  lemma {:induction false} RawBlockersDistinct(rules: seq<Rule>, d: Device, observed: Option<string>)
    requires DistinctIds(rules)
    ensures Distinct(RawBlockers(rules, d, observed))
  {
    if rules == [] {
    } else {
      var most, last := rules[..|rules| - 1], rules[|rules| - 1];
      RawBlockersDistinct(most, d, observed);
      RawBlockersExactly(most, d, observed);
      forall b | b in RawBlockers(most, d, observed) ensures b.ruleId != Some(last.id) {
        var r :| r in most && EvaluateRule(r, d, observed) == Some(b);
      }
    }
  }

  /**
   The sorted list, and so the primary blocker, does not depend on the order in which the rules are
   visited: no two blockers tie, because each cites a rule of its own or is the synthetic one.
  */
  lemma SortIsOrderIndependent(a: seq<Rule>, b: seq<Rule>, d: Device, observed: Option<string>, synthetic: seq<Blocker>)
    requires multiset(a) == multiset(b) && DistinctIds(a)
    requires |synthetic| <= 1 && (synthetic != [] ==> synthetic[0].ruleId == None)
    ensures SortBlockers(RawBlockers(a, d, observed) + synthetic) ==
            SortBlockers(RawBlockers(b, d, observed) + synthetic)
  {
    var x, y := RawBlockers(a, d, observed) + synthetic, RawBlockers(b, d, observed) + synthetic;
    SameBlockers(a, b, d, observed);
    assert multiset(x) == multiset(y);
    BeforeIsOrder();
    forall p, q | p in x && q in x && Before(p, q) && Before(q, p) ensures p == q {
      NoTies(a, d, observed, synthetic, p, q);
    }
    SortIgnoresOrder(x, y, Before);
  }

  lemma SameBlockers(a: seq<Rule>, b: seq<Rule>, d: Device, observed: Option<string>)
    requires multiset(a) == multiset(b) && DistinctIds(a)
    ensures multiset(RawBlockers(a, d, observed)) == multiset(RawBlockers(b, d, observed))
  {
    SameLength(a, b);
    assert DistinctIds(b) by {
      assert Distinct(a);
      DistinctMultiplicity(a);
      forall i, j | 0 <= i < j < |b| ensures b[i].id != b[j].id {
        assert b[i] in a && b[j] in a;
        if b[i] == b[j] {
          RepeatCountsTwice(b, i, j);
        }
      }
    }
    RawBlockersExactly(a, d, observed);
    RawBlockersExactly(b, d, observed);
    RawBlockersDistinct(a, d, observed);
    RawBlockersDistinct(b, d, observed);
    DistinctPermutation(RawBlockers(a, d, observed), RawBlockers(b, d, observed));
  }

  lemma NoTies(rules: seq<Rule>, d: Device, observed: Option<string>, synthetic: seq<Blocker>, p: Blocker, q: Blocker)
    requires DistinctIds(rules)
    requires |synthetic| <= 1 && (synthetic != [] ==> synthetic[0].ruleId == None)
    requires p in RawBlockers(rules, d, observed) + synthetic && q in RawBlockers(rules, d, observed) + synthetic
    requires p.ruleId == q.ruleId
    ensures p == q
  {
    var raw := RawBlockers(rules, d, observed);
    if p in raw {
      CitesARule(rules, d, observed, p);
      assert q in raw;
      OneBlockerPerRule(rules, d, observed, p, q);
    } else if q in raw {
      CitesARule(rules, d, observed, q);
    }
  }

  lemma CitesARule(rules: seq<Rule>, d: Device, observed: Option<string>, p: Blocker)
    requires p in RawBlockers(rules, d, observed)
    ensures p.ruleId.Some?
    ensures exists r :: r in rules && p.ruleId == Some(r.id) && EvaluateRule(r, d, observed) == Some(p)
  {
    RawBlockersExactly(rules, d, observed);
    var r :| r in rules && EvaluateRule(r, d, observed) == Some(p);
    assert p.ruleId == Some(r.id);
  }

  lemma OneBlockerPerRule(rules: seq<Rule>, d: Device, observed: Option<string>, p: Blocker, q: Blocker)
    requires DistinctIds(rules) && p.ruleId == q.ruleId
    requires p in RawBlockers(rules, d, observed) && q in RawBlockers(rules, d, observed)
    ensures p == q
  {
    CitesARule(rules, d, observed, p);
    CitesARule(rules, d, observed, q);
    var r :| r in rules && p.ruleId == Some(r.id) && EvaluateRule(r, d, observed) == Some(p);
    var s :| s in rules && q.ruleId == Some(s.id) && EvaluateRule(s, d, observed) == Some(q);
    assert r == s;
  }

  /** The list is headed by a required blocker exactly when it holds one. */
  lemma RequiredComesFirst(bs: seq<Blocker>)
    requires bs != []
    ensures SortBlockers(bs)[0].severity == Required <==> exists b :: b in bs && b.severity == Required
  {
    BeforeIsOrder();
    SortSorts(bs, Before);
    SortPermutes(bs, Before);
    var sorted := Sort(bs, Before);
    assert sorted[0] in sorted;
    if b :| b in bs && b.severity == Required {
      var i :| 0 <= i < |sorted| && sorted[i] == b;
      assert i == 0 || Before(sorted[0], sorted[i]);
    }
  }
}
