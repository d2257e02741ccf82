/** The scope-selector grammar: a conjunction of leaves over the facts of a device. */
module ScopeSelector {
  import opened Prelude

  datatype Leaf =
    | VendorNormalized(value: string)
    | PlatformFamily(value: string)
    | RegionIn(values: seq<string>)
    | SiteIn(values: seq<string>)
    | RoleIn(values: seq<string>)
    | HardwareRevisionIn(values: seq<string>)
    | NotInState(states: seq<string>)
    | TaggedWith(tags: seq<string>)
    | UnrecognisedKey(key: string)

  type Selector = seq<Leaf>

  datatype Facts = Facts(
    vendor: Option<string>, platform: Option<string>, region: Option<string>, site: Option<string>,
    role: Option<string>, hardwareRevision: Option<string>, lifecycle: Option<string>, tags: Option<seq<string>>)

  datatype Verdict = Verdict(matched: bool, deferred: bool)

  datatype SelectorError = UnknownSelectorKey

  predicate CarriesAll(have: seq<string>, wanted: seq<string>) {
    forall i :: 0 <= i < |wanted| ==> exists j :: 0 <= j < |have| && Lower(have[j]) == Lower(wanted[i])
  }

  predicate IsIn(fact: Option<string>, values: seq<string>) {
    fact.Some? && fact.value in values
  }

  /** What one leaf asks of the facts; an unknown fact never satisfies a leaf. */
  predicate LeafHolds(leaf: Leaf, f: Facts) {
    match leaf
    case VendorNormalized(v) => f.vendor == Some(v)
    case PlatformFamily(v) => f.platform == Some(v)
    case RegionIn(vs) => IsIn(f.region, vs)
    case SiteIn(vs) => IsIn(f.site, vs)
    case RoleIn(vs) => IsIn(f.role, vs)
    case HardwareRevisionIn(vs) => IsIn(f.hardwareRevision, vs)
    case NotInState(states) => f.lifecycle.Some? && f.lifecycle.value !in states
    case TaggedWith(tags) => f.tags.Some? && CarriesAll(f.tags.value, tags)
    case UnrecognisedKey(_) => false
  }

  predicate KnownKeys(s: Selector) {
    forall i :: 0 <= i < |s| ==> !s[i].UnrecognisedKey?
  }

  predicate Matches(s: Selector, f: Facts) {
    forall i :: 0 <= i < |s| ==> LeafHolds(s[i], f)
  }

  /** The evaluation stops at a tag leaf because the facts carry no tags at all. */
  predicate Defers(s: Selector, f: Facts) {
    f.tags.None? && exists i :: 0 <= i < |s| && s[i].TaggedWith? && forall k :: 0 <= k < i ==> LeafHolds(s[k], f)
  }

  /** The leaf-by-leaf evaluation with its early exits. */
  method Evaluate(s: Selector, f: Facts) returns (r: Result<Verdict, SelectorError>)
    ensures r.Err? <==> !KnownKeys(s)
    ensures r.Ok? ==> (r.value.matched <==> Matches(s, f))
    ensures r.Ok? ==> (r.value.deferred <==> Defers(s, f))
    ensures r.Ok? && r.value.deferred ==> !r.value.matched
  {
    for i := 0 to |s|
      invariant forall k :: 0 <= k < i ==> !s[k].UnrecognisedKey?
    {
      if s[i].UnrecognisedKey? {
        return Err(UnknownSelectorKey);
      }
    }
    for i := 0 to |s|
      invariant forall k :: 0 <= k < i ==> LeafHolds(s[k], f)
    {
      if s[i].TaggedWith? && f.tags.None? {
        return Ok(Verdict(false, true));
      }
      if !LeafHolds(s[i], f) {
        return Ok(Verdict(false, false));
      }
    }
    return Ok(Verdict(true, false));
  }

  predicate Counts(leaf: Leaf) {
    match leaf
    case VendorNormalized(_) => true
    case PlatformFamily(_) => true
    case RegionIn(vs) => vs != []
    case SiteIn(vs) => vs != []
    case RoleIn(vs) => vs != []
    case HardwareRevisionIn(vs) => vs != []
    case NotInState(vs) => vs != []
    case TaggedWith(vs) => vs != []
    case UnrecognisedKey(_) => false
  }

  /** The number of constraining leaves; list lengths do not matter. */
  function Specificity(s: Selector): (n: nat)
    ensures n <= |s|
    ensures n == |s| <==> forall i :: 0 <= i < |s| ==> Counts(s[i])
  {
    if s == [] then 0
    else Specificity(s[..|s| - 1]) + (if Counts(s[|s| - 1]) then 1 else 0)
  }

  /** The positions of the leaves that constrain anything. */
  ghost function CountingLeaves(s: Selector): set<nat> {
    set i | 0 <= i < |s| && Counts(s[i])
  }

  /** So the specificity is the number of leaves that constrain, wherever they stand. */
  lemma {:induction false} SpecificityCounts(s: Selector)
    ensures Specificity(s) == |CountingLeaves(s)|
  {
    if s == [] {
    } else {
      var most, last := s[..|s| - 1], |s| - 1;
      SpecificityCounts(most);
      assert CountingLeaves(s) == CountingLeaves(most) + (if Counts(s[last]) then {last} else {});
    }
  }

  lemma {:induction false} SpecificityAdds(s: Selector, t: Selector)
    ensures Specificity(s + t) == Specificity(s) + Specificity(t)
  {
    if t == [] {
      assert s + t == s;
    } else {
      SpecificityAdds(s, t[..|t| - 1]);
      assert (s + t)[..|s + t| - 1] == s + t[..|t| - 1];
    }
  }

  /** A leaf adds one, wherever it stands, if it names a value or lists at least one; an empty list adds nothing. */
  lemma LeafAdds(before: Selector, leaf: Leaf, after: Selector)
    ensures Specificity(before + [leaf] + after) - Specificity(before + after) ==
              match leaf
              case VendorNormalized(_) => 1
              case PlatformFamily(_) => 1
              case RegionIn(values) => if values == [] then 0 else 1
              case SiteIn(values) => if values == [] then 0 else 1
              case RoleIn(values) => if values == [] then 0 else 1
              case HardwareRevisionIn(values) => if values == [] then 0 else 1
              case NotInState(states) => if states == [] then 0 else 1
              case TaggedWith(tags) => if tags == [] then 0 else 1
              case UnrecognisedKey(_) => 0
  {
    SpecificityAdds(before + [leaf], after);
    SpecificityAdds(before, [leaf]);
    SpecificityAdds(before, after);
    assert [leaf][..0] == [] && Specificity([]) == 0;
  }

  /** The leaf names a value, or lists at least one. */
  predicate Asks(leaf: Leaf) {
    match leaf
    case VendorNormalized(_) => true
    case PlatformFamily(_) => true
    case RegionIn(values) => |values| > 0
    case SiteIn(values) => |values| > 0
    case RoleIn(values) => |values| > 0
    case HardwareRevisionIn(values) => |values| > 0
    case NotInState(states) => |states| > 0
    case TaggedWith(tags) => |tags| > 0
    case UnrecognisedKey(_) => false
  }

  /** What a scope asks of a device is that every leaf, wherever it stands, finds its own fact. */
  lemma MatchesExactly(s: Selector, f: Facts)
    ensures Matches(s, f) <==>
            && (forall v :: VendorNormalized(v) in s ==> f.vendor == Some(v))
            && (forall v :: PlatformFamily(v) in s ==> f.platform == Some(v))
            && (forall vs :: RegionIn(vs) in s ==> f.region.Some? && f.region.value in vs)
            && (forall vs :: SiteIn(vs) in s ==> f.site.Some? && f.site.value in vs)
            && (forall vs :: RoleIn(vs) in s ==> f.role.Some? && f.role.value in vs)
            && (forall vs :: HardwareRevisionIn(vs) in s ==> f.hardwareRevision.Some? && f.hardwareRevision.value in vs)
            && (forall vs :: NotInState(vs) in s ==> f.lifecycle.Some? && f.lifecycle.value !in vs)
            && (forall vs :: TaggedWith(vs) in s ==>
                  f.tags.Some? && forall v :: v in vs ==> exists t :: t in f.tags.value && Lower(t) == Lower(v))
            && (forall k :: UnrecognisedKey(k) !in s)
  {
    assert Matches(s, f) <==> forall leaf :: leaf in s ==> LeafHolds(leaf, f);
    forall vs | TaggedWith(vs) in s
      ensures LeafHolds(TaggedWith(vs), f) <==>
              f.tags.Some? && forall v :: v in vs ==> exists t :: t in f.tags.value && Lower(t) == Lower(v)
    {
      if f.tags.Some? {
        CarriesExactly(f.tags.value, vs);
      }
    }
    if !Matches(s, f) {
      var leaf :| leaf in s && !LeafHolds(leaf, f);
      match leaf
      case TaggedWith(vs) => assert TaggedWith(vs) in s;
      case _ =>
    }
  }

  lemma CarriesExactly(have: seq<string>, wanted: seq<string>)
    ensures CarriesAll(have, wanted) <==> forall v :: v in wanted ==> exists t :: t in have && Lower(t) == Lower(v)
  {
    if CarriesAll(have, wanted) {
      forall v | v in wanted ensures exists t :: t in have && Lower(t) == Lower(v) {
        var i :| 0 <= i < |wanted| && wanted[i] == v;
        var j :| 0 <= j < |have| && Lower(have[j]) == Lower(wanted[i]);
        assert have[j] in have;
      }
    }
    if forall v :: v in wanted ==> exists t :: t in have && Lower(t) == Lower(v) {
      forall i | 0 <= i < |wanted| ensures exists j :: 0 <= j < |have| && Lower(have[j]) == Lower(wanted[i]) {
        var v := wanted[i];
        assert v in wanted;
        var t :| t in have && Lower(t) == Lower(v);
        var j :| 0 <= j < |have| && have[j] == t;
      }
    }
  }

  /** The evaluation is deferred when it comes to a tag leaf, past leaves that hold, and no tags are on file. */
  lemma DefersExactly(s: Selector, f: Facts)
    ensures Defers(s, f) <==>
            f.tags == None && exists i, tags :: 0 <= i < |s| && s[i] == TaggedWith(tags) && Matches(s[..i], f)
  {
    if f.tags == None {
      forall i | 0 <= i < |s| && s[i].TaggedWith?
        ensures (forall k :: 0 <= k < i ==> LeafHolds(s[k], f)) <==> Matches(s[..i], f)
      {
        assert forall k :: 0 <= k < i ==> s[..i][k] == s[k];
      }
      if i :| 0 <= i < |s| && s[i].TaggedWith? && forall k :: 0 <= k < i ==> LeafHolds(s[k], f) {
        assert s[i] == TaggedWith(s[i].tags) && Matches(s[..i], f);
      }
    }
  }

  ghost predicate LifecycleFree(s: Selector) {
    forall i :: 0 <= i < |s| ==> !s[i].NotInState?
  }

  ghost predicate TagFree(s: Selector) {
    forall i :: 0 <= i < |s| ==> !s[i].TaggedWith?
  }

  /** A selector without a state leaf cannot tell lifecycle states apart. */
  lemma LifecycleIrrelevant(s: Selector, f: Facts, state: Option<string>)
    requires LifecycleFree(s)
    ensures Matches(s, f) == Matches(s, f.(lifecycle := state))
  {
    assert forall i :: 0 <= i < |s| ==> LeafHolds(s[i], f) == LeafHolds(s[i], f.(lifecycle := state));
  }

  /** A selector without a tag leaf cannot tell tag sets apart. */
  lemma TagsIrrelevant(s: Selector, f: Facts, tags: Option<seq<string>>)
    requires TagFree(s)
    ensures Matches(s, f) == Matches(s, f.(tags := tags))
  {
    assert forall i :: 0 <= i < |s| ==> LeafHolds(s[i], f) == LeafHolds(s[i], f.(tags := tags));
  }

  /** The order in which the leaves are written never changes the verdict. */
  lemma OrderIrrelevant(s: Selector, t: Selector, f: Facts)
    requires multiset(s) == multiset(t)
    ensures Matches(s, f) == Matches(t, f)
  {
    assert forall x :: x in s <==> x in multiset(s);
    assert forall x :: x in t <==> x in multiset(t);
    assert Matches(s, f) <==> forall x :: x in s ==> LeafHolds(x, f);
    assert Matches(t, f) <==> forall x :: x in t ==> LeafHolds(x, f);
  }
}
