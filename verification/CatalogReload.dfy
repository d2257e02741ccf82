/** The bounded re-evaluation after a catalog reload: whom it visits, and whom it may safely skip. */
module CatalogReload {
  import opened Prelude
  import opened CatalogLoader
  import CatalogMirror
  import opened CatalogStore
  import opened Prerequisites
  import opened Compliance
  import opened ComplianceTheorems
  import Readiness
  import ScopeSelector

  type PrerequisiteRow = Row<string, PrerequisiteBody>

  // ---- every change is reported --------------------------------------------

  ghost predicate Reported<K>(deltas: seq<Delta<K>>, id: nat) {
    exists d :: d in deltas && d.id == id && d.action != Unaltered
  }

  /** Rows that an upsert pass adds or changes show up in its report. */
  lemma {:induction false} UpsertsAreReported<K, B>(rows: seq<Row<K, B>>, decls: seq<Decl<K, B>>, next: nat,
                                                    clock: nat -> int, i: nat)
    requires i < |UpsertAll(rows, decls, next, clock)|
    requires i < |rows| ==> UpsertAll(rows, decls, next, clock)[i] != rows[i]
    ensures Reported(DeltasOf(rows, decls, next, clock), UpsertAll(rows, decls, next, clock)[i].id)
  {
    if decls == [] {
    } else {
      var most, d := decls[..|decls| - 1], decls[|decls| - 1];
      var before := UpsertAll(rows, most, next, clock);
      var id := next + |before| - |rows|;
      var after := Upsert(before, d, id, clock);
      assert UpsertAll(rows, decls, next, clock) == after;
      var last := UpsertDelta(before, d, id);
      assert DeltasOf(rows, decls, next, clock) == DeltasOf(rows, most, next, clock) + [last];
      if i < |before| && after[i] == before[i] {
        UpsertsAreReported(rows, most, next, clock, i);
        var e :| e in DeltasOf(rows, most, next, clock) && e.id == after[i].id && e.action != Unaltered;
        assert e in DeltasOf(rows, decls, next, clock);
      } else {
        assert last.id == after[i].id && last.action == Loaded;
        assert last in DeltasOf(rows, decls, next, clock);
      }
    }
  }

  lemma {:induction false} RemovalsAreReported<K, B>(p: Policy<B>, rows: seq<Row<K, B>>, decls: seq<Decl<K, B>>,
                                                     paths: set<string>, i: nat)
    requires i < |rows| && Stale(p, rows[i], decls, paths)
    ensures Delta(rows[i].id, rows[i].key, Removed) in Removals(p, rows, decls, paths)
  {
    if i < |rows| - 1 {
      RemovalsAreReported(p, rows[..|rows| - 1], decls, paths, i);
    }
  }

  /** Whatever a load adds, changes or retires shows up in its report. */
  lemma ChangesAreReported<K, B>(p: Policy<B>, rows: seq<Row<K, B>>, files: seq<SourceFile<K, B>>, next: nat,
                                 clock: nat -> int, i: nat)
    requires i < |LoadedRows(p, rows, files, next, clock)|
    requires i < |rows| ==> LoadedRows(p, rows, files, next, clock)[i] != rows[i]
    ensures Reported(LoadedDeltas(p, rows, files, next, clock), LoadedRows(p, rows, files, next, clock)[i].id)
  {
    var decls, paths := DeclsOf(files), PathsOf(files);
    var grown := UpsertAll(rows, decls, next, clock);
    var upserts, removals := DeltasOf(rows, decls, next, clock), Removals(p, grown, decls, paths);
    var deltas := LoadedDeltas(p, rows, files, next, clock);
    assert deltas == upserts + removals;
    if Stale(p, grown[i], decls, paths) {
      RemovalsAreReported(p, grown, decls, paths, i);
      assert Delta(grown[i].id, grown[i].key, Removed) in deltas;
    } else {
      UpsertsAreReported(rows, decls, next, clock, i);
      var e :| e in upserts && e.id == grown[i].id && e.action != Unaltered;
      assert e in deltas;
    }
  }

  /** A row that the load did not report is the row that was there before. */
  lemma UnreportedRowsAreUntouched<K, B>(p: Policy<B>, rows: seq<Row<K, B>>, files: seq<SourceFile<K, B>>, next: nat,
                                         clock: nat -> int, i: nat)
    requires i < |LoadedRows(p, rows, files, next, clock)|
    requires !Reported(LoadedDeltas(p, rows, files, next, clock), LoadedRows(p, rows, files, next, clock)[i].id)
    ensures i < |rows| && LoadedRows(p, rows, files, next, clock)[i] == rows[i]
  {
    if i < |rows| ==> LoadedRows(p, rows, files, next, clock)[i] != rows[i] {
      ChangesAreReported(p, rows, files, next, clock, i);
    }
  }

  /** A load keeps stored rows at their place under their id; the rows behind them get fresh ids. */
  lemma LoadKeepsIdsUnique<K, B>(p: Policy<B>, rows: seq<Row<K, B>>, files: seq<SourceFile<K, B>>, next: nat,
                                 clock: nat -> int)
    requires KeysUnique(rows) && IdsUnique(rows) && IdsBelow(rows, next) && Loadable(p, rows, files)
    ensures var after := LoadedRows(p, rows, files, next, clock);
            && |rows| <= |after| && IdsUnique(after)
            && forall i :: 0 <= i < |rows| ==> after[i].id == rows[i].id && after[i].loadedAt == rows[i].loadedAt
  {
    var decls := DeclsOf(files);
    var grown := UpsertAll(rows, decls, next, clock);
    UpsertAllGrows(rows, decls, next, clock);
    GrownIdsUnique(rows, decls, grown, next);
    assert forall i :: 0 <= i < |grown| ==>
             LoadedRows(p, rows, files, next, clock)[i].id == grown[i].id &&
             LoadedRows(p, rows, files, next, clock)[i].loadedAt == grown[i].loadedAt;
  }

  lemma GrownIdsUnique<K, B>(rows: seq<Row<K, B>>, decls: seq<Decl<K, B>>, grown: seq<Row<K, B>>, next: nat)
    requires Grown(rows, decls, grown, next) && IdsUnique(rows) && IdsBelow(rows, next)
    ensures IdsUnique(grown)
  {
  }

  /** An upsert pass reports no stored row that it leaves as it was. */
  lemma {:induction false} UnchangedRowsAreUnaltered<K, B>(rows: seq<Row<K, B>>, decls: seq<Decl<K, B>>, next: nat,
                                                           clock: nat -> int, i: nat)
    requires KeysUnique(rows) && IdsUnique(rows) && IdsBelow(rows, next) && DistinctKeys(decls) && i < |rows|
    requires UpsertAll(rows, decls, next, clock)[i] == rows[i]
    ensures !Reported(DeltasOf(rows, decls, next, clock), rows[i].id)
  {
    if decls == [] {
    } else {
      var most, d := decls[..|decls| - 1], decls[|decls| - 1];
      assert decls == most + [d];
      LastUpsertLeavesIt(rows, most, d, next, clock, i);
      UnchangedRowsAreUnaltered(rows, most, next, clock, i);
    }
  }

  lemma ReportedSnoc<K>(deltas: seq<Delta<K>>, e: Delta<K>, id: nat)
    ensures Reported(deltas + [e], id) <==> Reported(deltas, id) || (e.id == id && e.action != Unaltered)
  {
    assert e in deltas + [e] && forall d :: d in deltas ==> d in deltas + [e];
  }

  /** The last upsert of a pass neither undoes a change nor reports a row that it leaves alone. */
  lemma LastUpsertLeavesIt<K, B>(rows: seq<Row<K, B>>, most: seq<Decl<K, B>>, d: Decl<K, B>, next: nat,
                                 clock: nat -> int, i: nat)
    requires KeysUnique(rows) && IdsUnique(rows) && IdsBelow(rows, next) && DistinctKeys(most + [d]) && i < |rows|
    requires UpsertAll(rows, most + [d], next, clock)[i] == rows[i]
    ensures DistinctKeys(most) && UpsertAll(rows, most, next, clock)[i] == rows[i]
    ensures Reported(DeltasOf(rows, most + [d], next, clock), rows[i].id) <==>
            Reported(DeltasOf(rows, most, next, clock), rows[i].id)
  {
    var before := UpsertAll(rows, most, next, clock);
    LastIsUndeclared(most, d);
    UpsertAllGrows(rows, most, next, clock);
    GrownIdsUnique(rows, most, before, next);
    UpsertAllSnoc(rows, most, d, next, clock);
    DeltasOfSnoc(rows, most, d, next, clock);
    LastDeltaIsAboutAnother(rows, most, d, before, next, clock, i);
    ReportedSnoc(DeltasOf(rows, most, next, clock), UpsertDelta(before, d, next + |before| - |rows|), rows[i].id);
  }

  lemma LastDeltaIsAboutAnother<K, B>(rows: seq<Row<K, B>>, most: seq<Decl<K, B>>, d: Decl<K, B>,
                                      before: seq<Row<K, B>>, next: nat, clock: nat -> int, i: nat)
    requires Grown(rows, most, before, next) && IdsUnique(before) && IdsBelow(rows, next) && i < |rows|
    requires !Declared(most, d.key) && Upsert(before, d, next + |before| - |rows|, clock)[i] == rows[i]
    ensures before[i] == rows[i]
    ensures var e := UpsertDelta(before, d, next + |before| - |rows|); e.id == rows[i].id ==> e.action == Unaltered
  {
    var j := Find(before, d.key);
    assert j == i ==> before[i] == rows[i];
  }

  lemma {:induction false} RemovalsAreOfStaleRows<K, B>(p: Policy<B>, rows: seq<Row<K, B>>, decls: seq<Decl<K, B>>,
                                                        paths: set<string>, e: Delta<K>)
    requires e in Removals(p, rows, decls, paths)
    ensures exists k :: 0 <= k < |rows| && Stale(p, rows[k], decls, paths) && rows[k].id == e.id
  {
    if rows == [] {
    } else {
      var most, last := rows[..|rows| - 1], rows[|rows| - 1];
      if e in Removals(p, most, decls, paths) {
        RemovalsAreOfStaleRows(p, most, decls, paths, e);
        var k :| 0 <= k < |most| && Stale(p, most[k], decls, paths) && most[k].id == e.id;
        assert rows[k] == most[k];
      }
    }
  }

  /** A row that the load left as it was did not go stale. */
  lemma UnchangedRowIsNotStale<K, B>(p: Policy<B>, rows: seq<Row<K, B>>, files: seq<SourceFile<K, B>>, next: nat,
                                     clock: nat -> int, i: nat)
    requires KeysUnique(rows) && Loadable(p, rows, files) && i < |rows|
    requires LoadedRows(p, rows, files, next, clock)[i] == rows[i]
    ensures var grown := UpsertAll(rows, DeclsOf(files), next, clock);
            grown[i] == rows[i] && !Stale(p, grown[i], DeclsOf(files), PathsOf(files))
  {
    var decls := DeclsOf(files);
    var grown := UpsertAll(rows, decls, next, clock);
    UpsertAllGrows(rows, decls, next, clock);
    if Declared(decls, rows[i].key) {
      DeclaredByMember(decls, rows[i].key);
      var d :| d in decls && d.key == rows[i].key;
      DeclaredIsNotStale(p, grown[i], d, files);
    }
  }

  /** The report is exact: a stored row is reported only if the load changed it. */
  lemma OnlyChangesAreReported<K, B>(p: Policy<B>, rows: seq<Row<K, B>>, files: seq<SourceFile<K, B>>, next: nat,
                                     clock: nat -> int, i: nat)
    requires KeysUnique(rows) && IdsUnique(rows) && IdsBelow(rows, next) && Loadable(p, rows, files) && i < |rows|
    requires LoadedRows(p, rows, files, next, clock)[i] == rows[i]
    ensures !Reported(LoadedDeltas(p, rows, files, next, clock), rows[i].id)
  {
    var decls, paths := DeclsOf(files), PathsOf(files);
    var grown := UpsertAll(rows, decls, next, clock);
    UnchangedRowIsNotStale(p, rows, files, next, clock, i);
    UnchangedRowsAreUnaltered(rows, decls, next, clock, i);
    UpsertAllGrows(rows, decls, next, clock);
    GrownIdsUnique(rows, decls, grown, next);
    forall e | e in Removals(p, grown, decls, paths) ensures e.id != rows[i].id {
      RemovalsAreOfStaleRows(p, grown, decls, paths, e);
    }
  }

  // ---- the affected devices ------------------------------------------------

  /** The facts of the reload scan leave the tags out. */
  function ScanFacts(d: Device): ScopeSelector.Facts {
    Readiness.FactsOf(d).(tags := None)
  }

  predicate FirmwareState(lifecycle: string) {
    lifecycle in ["target_defined", "compliant", "outside_target", "unknown"]
  }

  function TargetScope(b: TargetBody): ScopeSelector.Selector {
    b.scope
  }

  function RuleScope(b: PrerequisiteBody): ScopeSelector.Selector {
    b.appliesTo
  }

  /** Does the scan match the device with the scope of some touched row? */
  predicate TouchedBy<B>(d: Device, rows: seq<Row<string, B>>, scopeOf: B -> ScopeSelector.Selector,
                         touched: set<nat>)
  {
    exists i :: 0 <= i < |rows| && rows[i].id in touched && ScopeSelector.Matches(scopeOf(rows[i].body), ScanFacts(d))
  }

  predicate Affected(d: Device, targets: seq<Target>, rules: seq<PrerequisiteRow>, touchedTargets: set<nat>,
                     touchedRules: set<nat>)
  {
    || FirmwareState(d.lifecycle)
    || TouchedBy(d, targets, TargetScope, touchedTargets)
    || TouchedBy(d, rules, RuleScope, touchedRules)
  }

  /** Does a touched row, with this scope, match the device when its tags are out of reach? */
  ghost predicate SeenThrough<B>(t: Row<string, B>, scope: ScopeSelector.Selector, touched: set<nat>, d: Device) {
    t.id in touched && ScopeSelector.Matches(scope, d.facts.(lifecycle := Some(d.lifecycle), tags := None))
  }

  /** Whom the scan has to find: the firmware states, and whoever a touched target or rule matches without its tags. */
  ghost predicate Due(d: Device, targets: seq<Target>, rules: seq<PrerequisiteRow>, touchedTargets: set<nat>,
                      touchedRules: set<nat>)
  {
    || d.lifecycle in ["target_defined", "compliant", "outside_target", "unknown"]
    || (exists t :: t in targets && SeenThrough(t, t.body.scope, touchedTargets, d))
    || (exists r :: r in rules && SeenThrough(r, r.body.appliesTo, touchedRules, d))
  }

  lemma AffectedIffDue(d: Device, targets: seq<Target>, rules: seq<PrerequisiteRow>, touchedTargets: set<nat>,
                       touchedRules: set<nat>)
    ensures Affected(d, targets, rules, touchedTargets, touchedRules) <==>
            Due(d, targets, rules, touchedTargets, touchedRules)
  {
    if t :| t in targets && SeenThrough(t, t.body.scope, touchedTargets, d) {
      var i :| 0 <= i < |targets| && targets[i] == t;
      assert TouchedBy(d, targets, TargetScope, touchedTargets);
    }
    if r :| r in rules && SeenThrough(r, r.body.appliesTo, touchedRules, d) {
      var i :| 0 <= i < |rules| && rules[i] == r;
      assert TouchedBy(d, rules, RuleScope, touchedRules);
    }
    if i :| 0 <= i < |targets| && targets[i].id in touchedTargets &&
            ScopeSelector.Matches(TargetScope(targets[i].body), ScanFacts(d)) {
      assert targets[i] in targets && SeenThrough(targets[i], targets[i].body.scope, touchedTargets, d);
    }
    if i :| 0 <= i < |rules| && rules[i].id in touchedRules &&
            ScopeSelector.Matches(RuleScope(rules[i].body), ScanFacts(d)) {
      assert rules[i] in rules && SeenThrough(rules[i], rules[i].body.appliesTo, touchedRules, d);
    }
  }

  /** A touched scope without a tag leaf is seen whenever it covers the device, tags and all. */
  lemma UntaggedScopeIsSeen<B>(t: Row<string, B>, scope: ScopeSelector.Selector, touched: set<nat>, d: Device)
    requires forall leaf :: leaf in scope ==> !leaf.TaggedWith?
    ensures SeenThrough(t, scope, touched, d) <==>
            t.id in touched && ScopeSelector.Matches(scope, d.facts.(lifecycle := Some(d.lifecycle)))
  {
    ScopeSelector.TagsIrrelevant(scope, d.facts.(lifecycle := Some(d.lifecycle)), None);
  }

  ghost function Touched<K(!new)>(deltas: seq<Delta<K>>): set<nat> {
    set d | d in deltas && d.action != Unaltered :: d.id
  }

  /**
   The single scan over all devices that builds the set to re-evaluate: all in one of the four firmware
   states, and all that a touched target or rule matches once the tags are left out.
  */
  method AffectedDevices(devices: seq<Device>, targets: seq<Target>, rules: seq<PrerequisiteRow>,
                         touchedTargets: set<nat>, touchedRules: set<nat>) returns (affected: set<nat>)
    requires KnownScopes(targets) && forall r :: r in rules ==> ScopeSelector.KnownKeys(r.body.appliesTo)
    ensures forall id :: id in affected <==>
              exists i :: 0 <= i < |devices| && devices[i].id == id &&
                Due(devices[i], targets, rules, touchedTargets, touchedRules)
  {
    affected := {};
    for i := 0 to |devices|
      invariant forall id :: id in affected <==>
                  exists k :: 0 <= k < i && devices[k].id == id &&
                    Due(devices[k], targets, rules, touchedTargets, touchedRules)
    {
      var d := devices[i];
      var hit := FirmwareState(d.lifecycle);
      if !hit {
        hit := MatchesSome(d, targets, TargetScope, touchedTargets);
      }
      if !hit {
        hit := MatchesSome(d, rules, RuleScope, touchedRules);
      }
      AffectedIffDue(d, targets, rules, touchedTargets, touchedRules);
      if hit {
        affected := affected + {d.id};
      }
    }
  }

  method MatchesSome<B>(d: Device, rows: seq<Row<string, B>>, scopeOf: B -> ScopeSelector.Selector, touched: set<nat>)
    returns (hit: bool)
    requires forall r :: r in rows ==> ScopeSelector.KnownKeys(scopeOf(r.body))
    ensures hit <==> TouchedBy(d, rows, scopeOf, touched)
  {
    for i := 0 to |rows|
      invariant forall k :: 0 <= k < i && rows[k].id in touched ==>
                  !ScopeSelector.Matches(scopeOf(rows[k].body), ScanFacts(d))
    {
      assert rows[i] in rows;
      if rows[i].id in touched {
        var verdict := ScopeSelector.Evaluate(scopeOf(rows[i].body), ScanFacts(d));
        if verdict.value.matched {
          return true;
        }
      }
    }
    return false;
  }

  // ---- whom the scan may skip ----------------------------------------------

  /** One reload of a scoped table: its rows before, the files, and what the load makes of them. */
  datatype Reload<!B> = Reload(policy: Policy<B>, scopeOf: B -> ScopeSelector.Selector, before: seq<Row<string, B>>,
                               files: seq<SourceFile<string, B>>, next: nat, clock: nat -> int) {
    ghost function After(): seq<Row<string, B>> {
      LoadedRows(policy, before, files, next, clock)
    }

    ghost function TouchedIds(): set<nat> {
      Touched(LoadedDeltas(policy, before, files, next, clock))
    }

    /** One row per name, ids from the sequence, and an accepted tree. */
    ghost predicate Ok() {
      KeysUnique(before) && IdsUnique(before) && IdsBelow(before, next) && Loadable(policy, before, files)
    }

    /** Was the scope of this row replaced by another one? */
    ghost predicate Rewritten(t: Row<string, B>) {
      exists u :: u in After() && u.id == t.id && scopeOf(u.body) != scopeOf(t.body)
    }

    /** The scan of this table skips the device. */
    ghost predicate Skips(d: Device) {
      !TouchedBy(d, After(), scopeOf, TouchedIds())
    }

    ghost predicate Covers(t: Row<string, B>, d: Device) {
      ScopeSelector.Matches(scopeOf(t.body), Readiness.FactsOf(d))
    }

    /** A touched row covers the device. */
    ghost predicate TouchedOver(t: Row<string, B>, d: Device) {
      t in After() && t.id in TouchedIds() && Covers(t, d)
    }

    ghost predicate NothingTouchedOver(d: Device) {
      forall t :: t in After() ==> !TouchedOver(t, d)
    }
  }

  /** A load touches exactly the rows that it inserted, changed or retired. */
  lemma TouchedExactly<B>(r: Reload<B>, id: nat)
    requires KeysUnique(r.before) && Loadable(r.policy, r.before, r.files)
    ensures id in r.TouchedIds() <==>
            exists i ::
              0 <= i < |r.After()| && r.After()[i].id == id && (i < |r.before| ==> r.After()[i] != r.before[i])
  {
    var before, after := r.before, r.After();
    var deltas := LoadedDeltas(r.policy, before, r.files, r.next, r.clock);
    CatalogMirror.LoadReportsExactly(r.policy, before, r.files, r.next, r.clock);
    if id in r.TouchedIds() {
      var e :| e in deltas && e.action != Unaltered && e.id == id;
      assert CatalogMirror.Tells(before, after, e);
    }
    if i :| 0 <= i < |after| && after[i].id == id && (i < |before| ==> after[i] != before[i]) {
      ChangeHappened(r, i);
      var e := Delta(after[i].id, after[i].key, if after[i].live then Loaded else Removed);
      assert CatalogMirror.Happened(before, after, i, e.action);
      assert CatalogMirror.Tells(before, after, e);
    }
  }

  lemma ChangeHappened<B>(r: Reload<B>, i: nat)
    requires KeysUnique(r.before) && Loadable(r.policy, r.before, r.files) && i < |r.After()|
    requires i < |r.before| ==> r.After()[i] != r.before[i]
    ensures CatalogMirror.Happened(r.before, r.After(), i, if r.After()[i].live then Loaded else Removed)
  {
    CatalogMirror.LoadRefreshes(r.policy, r.before, r.files, r.next, r.clock);
    if i < |r.before| {
      assert CatalogMirror.RowRefreshed(r.before[i], r.After()[i], r.files, r.policy.staleByKey);
    } else {
      assert CatalogMirror.RowInserted(r.After()[i], r.next + i - |r.before|, r.files, r.clock);
    }
  }

  /** The scan overlooks a scope that covers the device exactly when the scope asks for a tag. */
  lemma ScanOverlooksIff(scope: ScopeSelector.Selector, d: Device)
    requires ScopeSelector.Matches(scope, Readiness.FactsOf(d))
    ensures !ScopeSelector.Matches(scope, ScanFacts(d)) <==> !ScopeSelector.TagFree(scope)
  {
    if ScopeSelector.TagFree(scope) {
      ScopeSelector.TagsIrrelevant(scope, Readiness.FactsOf(d), None);
    }
  }

  /** A touched row covers a skipped device only through a tag. */
  lemma OverlookedThroughTags<B>(r: Reload<B>, d: Device, t: Row<string, B>)
    requires r.Skips(d) && r.TouchedOver(t, d)
    ensures !ScopeSelector.TagFree(r.scopeOf(t.body))
  {
    ScanOverlooksIff(r.scopeOf(t.body), d);
  }

  /** A row that the load did not touch was there before. */
  lemma UntouchedRowIsOld<B>(r: Reload<B>, t: Row<string, B>)
    requires t in r.After() && t.id !in r.TouchedIds()
    ensures t in r.before
  {
    var i :| 0 <= i < |r.After()| && r.After()[i] == t;
    UnreportedRowsAreUntouched(r.policy, r.before, r.files, r.next, r.clock, i);
  }

  /** Every stored row keeps its place, id and load time through a load, and is touched exactly if it changed. */
  lemma RowSurvives<B>(r: Reload<B>, t: Row<string, B>) returns (u: Row<string, B>)
    requires r.Ok() && t in r.before
    ensures u in r.After() && u.id == t.id && u.loadedAt == t.loadedAt
    ensures forall v :: v in r.After() && v.id == t.id ==> v == u
    ensures u.id !in r.TouchedIds() <==> u == t
  {
    LoadKeepsIdsUnique(r.policy, r.before, r.files, r.next, r.clock);
    var after := r.After();
    var i :| 0 <= i < |r.before| && r.before[i] == t;
    u := after[i];
    if u.id !in r.TouchedIds() {
      UnreportedRowsAreUntouched(r.policy, r.before, r.files, r.next, r.clock, i);
    }
    if u == t {
      OnlyChangesAreReported(r.policy, r.before, r.files, r.next, r.clock, i);
    }
    forall j | 0 <= j < |after| && after[j].id == t.id ensures j == i {
    }
  }

  /** After a load a device is covered by the untouched rows that covered it before and the touched ones that do now. */
  lemma CoveringAfter<B>(r: Reload<B>, d: Device, t: Row<string, B>)
    requires r.Ok()
    ensures t in r.After() && r.Covers(t, d) <==>
            (t in r.before && r.Covers(t, d) && t.id !in r.TouchedIds()) || r.TouchedOver(t, d)
  {
    if t in r.After() && t.id !in r.TouchedIds() {
      UntouchedRowIsOld(r, t);
    }
    if t in r.before {
      var u := RowSurvives(r, t);
    }
  }

  /** With nothing touched over the device, a row that covered it goes on doing so exactly if it was not rescoped. */
  lemma CoveredUnlessRescoped<B>(r: Reload<B>, d: Device, t: Row<string, B>)
    requires r.Ok() && r.NothingTouchedOver(d) && t in r.before && r.Covers(t, d)
    ensures t in r.After() <==> !r.Rewritten(t)
    ensures t.id !in r.TouchedIds() <==> !r.Rewritten(t)
  {
    var u := RowSurvives(r, t);
    assert !r.TouchedOver(u, d);
  }

  /** The tables of targets: reloaded by file, and without a tie in the load times. */
  ghost predicate ReloadsTargets(r: Reload<TargetBody>) {
    r.Ok() && r.policy == ByFile() && r.scopeOf == TargetScope && DistinctTimes(r.before) && DistinctTimes(r.After())
  }

  lemma EligibleAfter(r: Reload<TargetBody>, d: Device, t: Target)
    requires r.Ok() && r.scopeOf == TargetScope
    ensures var f := Readiness.FactsOf(d);
            Eligible(r.After(), f, t) <==>
            (Eligible(r.before, f, t) && t.id !in r.TouchedIds()) || (t.live && r.TouchedOver(t, d))
  {
    CoveringAfter(r, d, t);
  }

  /** No live touched target that covers the device ranks above this one. */
  ghost predicate OutranksTouched(r: Reload<TargetBody>, d: Device, u: Target) {
    forall t: Target :: t.live && r.TouchedOver(t, d) ==> Beats(u, t)
  }

  /** Nor does an untouched one. */
  ghost predicate OutranksUntouched(r: Reload<TargetBody>, d: Device, u: Target) {
    forall t :: Eligible(r.before, Readiness.FactsOf(d), t) && t.id !in r.TouchedIds() ==> Beats(u, t)
  }

  /** This row lets the target with its id go on governing. */
  ghost predicate GoesOn(r: Reload<TargetBody>, d: Device, w: Target, u: Target) {
    && Eligible(r.After(), Readiness.FactsOf(d), u) && u.id == w.id && OutranksTouched(r, d, u)
    && (r.Rewritten(w) ==> OutranksUntouched(r, d, u))
  }

  /**
   The governor of the device goes on governing: its row still does, no touched target overtakes it
   and, should it have been rescoped itself, no untouched one either. Without a governor none comes.
  */
  ghost predicate GovernorStays(r: Reload<TargetBody>, d: Device) {
    var w := Winner(r.before, Readiness.FactsOf(d));
    if w.None? then forall t: Target :: t.live ==> !r.TouchedOver(t, d)
    else exists u :: GoesOn(r, d, w.value, u)
  }

  /** A row that was not rescoped ranks as it did. */
  lemma RanksAsBefore(r: Reload<TargetBody>, d: Device, w: Target, u: Target)
    requires ReloadsTargets(r) && w in r.before && u in r.After() && u.id == w.id && !r.Rewritten(w)
    requires forall t :: Eligible(r.before, Readiness.FactsOf(d), t) ==> Beats(w, t)
    ensures OutranksUntouched(r, d, u)
  {
    var v := RowSurvives(r, w);
    assert u == v && r.scopeOf(u.body) == r.scopeOf(w.body);
  }

  lemma StayingGovernorWins(r: Reload<TargetBody>, d: Device, w: Target, u: Target)
    requires ReloadsTargets(r) && Winner(r.before, Readiness.FactsOf(d)) == Some(w)
    requires Eligible(r.After(), Readiness.FactsOf(d), u) && u.id == w.id && OutranksTouched(r, d, u)
    requires r.Rewritten(w) ==> OutranksUntouched(r, d, u)
    ensures Winner(r.After(), Readiness.FactsOf(d)) == Some(u)
  {
    var f := Readiness.FactsOf(d);
    WinnerIsBest(r.before, f);
    if !r.Rewritten(w) {
      RanksAsBefore(r, d, w, u);
    }
    forall t | Eligible(r.After(), f, t) ensures Beats(u, t) {
      EligibleAfter(r, d, t);
    }
    BestIsTheWinner(r.After(), f, u);
  }

  lemma WinnerOutranksAll(r: Reload<TargetBody>, d: Device)
    requires ReloadsTargets(r) && Winner(r.After(), Readiness.FactsOf(d)).Some?
    ensures var u := Winner(r.After(), Readiness.FactsOf(d)).value;
            Eligible(r.After(), Readiness.FactsOf(d), u) && OutranksTouched(r, d, u) && OutranksUntouched(r, d, u)
  {
    var f := Readiness.FactsOf(d);
    WinnerIsBest(r.After(), f);
    forall t: Target | t.live && r.TouchedOver(t, d) ensures Eligible(r.After(), f, t) {
      EligibleAfter(r, d, t);
    }
    forall t | Eligible(r.before, f, t) && t.id !in r.TouchedIds() ensures Eligible(r.After(), f, t) {
      EligibleAfter(r, d, t);
    }
  }

  /** Any device keeps its governing target through a reload exactly when the governor stays. */
  lemma TargetKeptIff(r: Reload<TargetBody>, d: Device)
    requires ReloadsTargets(r)
    ensures var f := Readiness.FactsOf(d); WinnerId(r.After(), f) == WinnerId(r.before, f) <==> GovernorStays(r, d)
  {
    if Winner(r.before, Readiness.FactsOf(d)).None? {
      UngovernedStaysIff(r, d);
    } else {
      GovernedStaysIff(r, d, Winner(r.before, Readiness.FactsOf(d)).value);
    }
  }

  lemma UngovernedStaysIff(r: Reload<TargetBody>, d: Device)
    requires ReloadsTargets(r) && Winner(r.before, Readiness.FactsOf(d)).None?
    ensures Winner(r.After(), Readiness.FactsOf(d)).None? <==> forall t: Target :: t.live ==> !r.TouchedOver(t, d)
  {
    var f := Readiness.FactsOf(d);
    WinnerIsBest(r.before, f);
    WinnerIsBest(r.After(), f);
    forall t ensures Eligible(r.After(), f, t) <==> t.live && r.TouchedOver(t, d) {
      EligibleAfter(r, d, t);
    }
  }

  lemma GovernedStaysIff(r: Reload<TargetBody>, d: Device, w: Target)
    requires ReloadsTargets(r) && Winner(r.before, Readiness.FactsOf(d)) == Some(w)
    ensures WinnerId(r.After(), Readiness.FactsOf(d)) == Some(w.id) <==> exists u :: GoesOn(r, d, w, u)
  {
    if u :| GoesOn(r, d, w, u) {
      StayingGovernorWins(r, d, w, u);
    }
    if WinnerId(r.After(), Readiness.FactsOf(d)) == Some(w.id) {
      WinnerGoesOn(r, d, w, Winner(r.After(), Readiness.FactsOf(d)).value);
    }
  }

  lemma WinnerGoesOn(r: Reload<TargetBody>, d: Device, w: Target, u: Target)
    requires ReloadsTargets(r) && Winner(r.After(), Readiness.FactsOf(d)) == Some(u) && u.id == w.id
    ensures GoesOn(r, d, w, u)
  {
    WinnerOutranksAll(r, d);
  }

  /** The target that governs the device, if there is one, did not get its scope rewritten. */
  ghost predicate GovernorKept(r: Reload<TargetBody>, d: Device) {
    var w := Winner(r.before, Readiness.FactsOf(d));
    w.Some? ==> !r.Rewritten(w.value)
  }

  /** With nothing touched over the device its governor stays exactly if it was not rescoped. */
  lemma GovernorStaysUnlessRescoped(r: Reload<TargetBody>, d: Device)
    requires ReloadsTargets(r) && r.NothingTouchedOver(d)
    ensures GovernorStays(r, d) <==> GovernorKept(r, d)
  {
    if Winner(r.before, Readiness.FactsOf(d)).Some? {
      WinnerIsBest(r.before, Readiness.FactsOf(d));
      UntouchedGovernorGoesOnIff(r, d, Winner(r.before, Readiness.FactsOf(d)).value);
    }
  }

  lemma UntouchedGovernorGoesOnIff(r: Reload<TargetBody>, d: Device, w: Target)
    requires ReloadsTargets(r) && r.NothingTouchedOver(d) && Eligible(r.before, Readiness.FactsOf(d), w)
    ensures (exists u :: GoesOn(r, d, w, u)) <==> !r.Rewritten(w)
  {
    CoveredUnlessRescoped(r, d, w);
    var v := RowSurvives(r, w);
    forall u | GoesOn(r, d, w, u) ensures u == w {
      assert u == v && !r.TouchedOver(u, d);
    }
    if !r.Rewritten(w) {
      assert GoesOn(r, d, w, w);
    }
  }

  /**
   A device outside the affected set keeps its governing target exactly when the governor stays. What
   the scan overlooked of the touched targets it overlooked because of a tag; and if there is nothing
   of the kind, the governor stays exactly when it did not get its scope rewritten.
  */
  lemma SkippedDeviceKeepsTargetIff(r: Reload<TargetBody>, d: Device, rules: seq<PrerequisiteRow>,
                                    touchedRules: set<nat>)
    requires ReloadsTargets(r) && !Affected(d, r.After(), rules, r.TouchedIds(), touchedRules)
    ensures var f := Readiness.FactsOf(d); WinnerId(r.After(), f) == WinnerId(r.before, f) <==> GovernorStays(r, d)
    ensures forall t :: r.TouchedOver(t, d) ==> !ScopeSelector.TagFree(r.scopeOf(t.body))
    ensures r.NothingTouchedOver(d) ==> (GovernorStays(r, d) <==> GovernorKept(r, d))
  {
    TargetKeptIff(r, d);
    forall t | r.TouchedOver(t, d) ensures !ScopeSelector.TagFree(r.scopeOf(t.body)) {
      OverlookedThroughTags(r, d, t);
    }
    if r.NothingTouchedOver(d) {
      GovernorStaysUnlessRescoped(r, d);
    }
  }

  /**
   So its assessment, from the same observation, names the same state, target and version exactly when
   the governor stays and asks for the same version.
  */
  lemma AssessmentKeptIff(r: Reload<TargetBody>, d: Device, observed: Option<string>)
    requires ReloadsTargets(r)
    ensures var f, a, b := Readiness.FactsOf(d), Assess(r.before, d, observed), Assess(r.After(), d, observed);
            SameStateAndVersion(a, b) && (a.target.Some? ==> a.target.value.id == b.target.value.id) <==>
            GovernorStays(r, d) && WinnerVersion(r.After(), f) == WinnerVersion(r.before, f)
  {
    TargetKeptIff(r, d);
    StateExactly(r.before, d, observed);
    StateExactly(r.After(), d, observed);
  }

  /** The live, evaluable rules that apply to a device. */
  ghost function RulesFor(rows: seq<PrerequisiteRow>, d: Device): set<PrerequisiteRow> {
    set r | r in rows && r.live && r.body.evaluable && ScopeSelector.Matches(r.body.appliesTo, Readiness.FactsOf(d))
  }

  lemma RulesAfter(r: Reload<PrerequisiteBody>, d: Device, t: PrerequisiteRow)
    requires r.Ok() && r.scopeOf == RuleScope
    ensures t in RulesFor(r.After(), d) <==>
            || (t in RulesFor(r.before, d) && t.id !in r.TouchedIds())
            || (t.live && t.body.evaluable && r.TouchedOver(t, d))
  {
    CoveringAfter(r, d, t);
  }

  /** A touched row is not one of those before. */
  lemma TouchedRowIsNew<B>(r: Reload<B>, d: Device, t: Row<string, B>)
    requires r.Ok() && r.TouchedOver(t, d)
    ensures t !in r.before
  {
    if t in r.before {
      var u := RowSurvives(r, t);
    }
  }

  /**
   The rules behind readiness. A reload leaves a device its untouched rules and those touched ones that
   cover it now; so the device keeps its rules exactly when none of them was touched and no touched one
   applies. A skipped device can only be covered by a touched rule through a tag, and without one it
   keeps its rules exactly when none of them got its scope rewritten.
  */
  lemma SkippedDeviceKeepsRulesIff(r: Reload<PrerequisiteBody>, d: Device, targets: seq<Target>,
                                   touchedTargets: set<nat>)
    requires r.Ok() && r.scopeOf == RuleScope && !Affected(d, targets, r.After(), touchedTargets, r.TouchedIds())
    ensures RulesFor(r.After(), d) == RulesFor(r.before, d) <==>
            && (forall t :: t in RulesFor(r.before, d) ==> t.id !in r.TouchedIds())
            && (forall t: PrerequisiteRow :: t.live && t.body.evaluable ==> !r.TouchedOver(t, d))
    ensures forall t :: r.TouchedOver(t, d) ==> !ScopeSelector.TagFree(r.scopeOf(t.body))
    ensures r.NothingTouchedOver(d) ==>
              (RulesFor(r.After(), d) == RulesFor(r.before, d) <==>
               forall t :: t in RulesFor(r.before, d) ==> !r.Rewritten(t))
  {
    RulesKeptIff(r, d);
    forall t | r.TouchedOver(t, d) ensures !ScopeSelector.TagFree(r.scopeOf(t.body)) {
      OverlookedThroughTags(r, d, t);
    }
    if r.NothingTouchedOver(d) {
      forall t | t in RulesFor(r.before, d) ensures t.id !in r.TouchedIds() <==> !r.Rewritten(t) {
        CoveredUnlessRescoped(r, d, t);
      }
    }
  }

  lemma RulesKeptIff(r: Reload<PrerequisiteBody>, d: Device)
    requires r.Ok() && r.scopeOf == RuleScope
    ensures RulesFor(r.After(), d) == RulesFor(r.before, d) <==>
            && (forall t :: t in RulesFor(r.before, d) ==> t.id !in r.TouchedIds())
            && (forall t: PrerequisiteRow :: t.live && t.body.evaluable ==> !r.TouchedOver(t, d))
  {
    forall t ensures t in RulesFor(r.After(), d) <==>
                     || (t in RulesFor(r.before, d) && t.id !in r.TouchedIds())
                     || (t.live && t.body.evaluable && r.TouchedOver(t, d))
    {
      RulesAfter(r, d, t);
    }
    forall t: PrerequisiteRow | t.live && t.body.evaluable && r.TouchedOver(t, d) ensures t !in RulesFor(r.before, d) {
      TouchedRowIsNew(r, d, t);
    }
    forall t | t in RulesFor(r.before, d) && t.id in r.TouchedIds() ensures t !in RulesFor(r.After(), d) {
      if r.TouchedOver(t, d) {
        TouchedRowIsNew(r, d, t);
      }
    }
  }

  // ---- the families that are missed ----------------------------------------

  ghost function ScopedTo(scope: ScopeSelector.Selector): TargetBody {
    TargetBody("iosxr", "2", scope, None, None, None)
  }

  ghost function OneFile(scope: ScopeSelector.Selector): seq<SourceFile<string, TargetBody>> {
    [SourceFile("targets/t.yaml", Ok([Entry("t", ScopedTo(scope))]))]
  }

  lemma OneFileDeclares(scope: ScopeSelector.Selector)
    ensures DeclsOf(OneFile(scope)) == [Decl("t", ScopedTo(scope), "targets/t.yaml")]
    ensures PathsOf(OneFile(scope)) == {"targets/t.yaml"}
  {
    var files := OneFile(scope);
    assert files[..0] == [] && DeclsOf(files[..0]) == [];
    assert files[0].path in PathsOf(files);
  }

  lemma OneUpsert(rows: seq<Target>, d: Decl<string, TargetBody>, next: nat, clock: nat -> int)
    ensures UpsertAll(rows, [d], next, clock) == Upsert(rows, d, next, clock)
  {
    assert [d][..0] == [];
    assert UpsertAll(rows, [d][..0], next, clock) == rows;
  }

  lemma OneFileLoads(rows: seq<Target>, scope: ScopeSelector.Selector, next: nat, clock: nat -> int)
    requires forall t :: t in rows ==> t.file == "targets/t.yaml"
    ensures LoadedRows(ByFile(), rows, OneFile(scope), next, clock) ==
            Upsert(rows, Decl("t", ScopedTo(scope), "targets/t.yaml"), next, clock)
    ensures Loadable(ByFile(), rows, OneFile(scope))
  {
    var d := Decl("t", ScopedTo(scope), "targets/t.yaml");
    OneFileDeclares(scope);
    OneUpsert(rows, d, next, clock);
    var grown := Upsert(rows, d, next, clock);
    assert forall i :: 0 <= i < |grown| ==> grown[i].file == "targets/t.yaml";
  }

  lemma OneLeaf(leaf: ScopeSelector.Leaf, f: ScopeSelector.Facts)
    ensures ScopeSelector.Matches([leaf], f) <==> ScopeSelector.LeafHolds(leaf, f)
  {
    assert [leaf][0] == leaf;
  }

  lemma OneTarget(t: Target, leaf: ScopeSelector.Leaf, f: ScopeSelector.Facts)
    requires t.live && t.body.scope == [leaf]
    ensures Winner([t], f) == if ScopeSelector.LeafHolds(leaf, f) then Some(t) else None
  {
    OneLeaf(leaf, f);
    WinnerIsBest([t], f);
    assert Eligible([t], f, t) <==> ScopeSelector.LeafHolds(leaf, f);
  }

  lemma OneTargetNotSeen(d: Device, t: Target, leaf: ScopeSelector.Leaf, touched: set<nat>)
    requires t.body.scope == [leaf] && !ScopeSelector.LeafHolds(leaf, ScanFacts(d)) && !FirmwareState(d.lifecycle)
    ensures !Affected(d, [t], [], touched, {})
  {
    OneLeaf(leaf, ScanFacts(d));
  }

  /**
   The condition on rewritten scopes is needed. Rescope the only target away from a device that no
   longer shows a firmware state, being ready or in a wave: whatever the scan counts as touched, it
   skips the device, though no target governs it any more.
  */
  lemma RescopedDeviceIsMissed(d: Device, from: ScopeSelector.Leaf, to: ScopeSelector.Leaf, row: Target,
                               clock: nat -> int, touched: set<nat>)
    requires row == Row(0, "t", ScopedTo([from]), "targets/t.yaml", true, 0) && !FirmwareState(d.lifecycle)
    requires ScopeSelector.LeafHolds(from, Readiness.FactsOf(d)) && !from.TaggedWith? && !to.TaggedWith?
    requires !ScopeSelector.LeafHolds(to, Readiness.FactsOf(d))
    ensures var r, f := Reload(ByFile(), TargetScope, [row], OneFile([to]), 1, clock), Readiness.FactsOf(d);
            && !Affected(d, r.After(), [], touched, {})
            && Winner([row], f) == Some(row) && Winner(r.After(), f) == None
  {
    var after := row.(body := ScopedTo([to]));
    OneFileLoads([row], [to], 1, clock);
    FindIsTheRow([row], 0);
    assert Upsert([row], Decl("t", ScopedTo([to]), "targets/t.yaml"), 1, clock) == [after];
    OneTargetNotSeen(d, after, to, touched);
    OneTarget(row, from, Readiness.FactsOf(d));
    OneTarget(after, to, Readiness.FactsOf(d));
  }

  /** Tags are needed out of the way too: a new target scoped by a tag is not seen by the scan at all. */
  lemma TaggedTargetIsMissed(d: Device, tags: seq<string>, clock: nat -> int, touched: set<nat>)
    requires !FirmwareState(d.lifecycle)
    requires ScopeSelector.LeafHolds(ScopeSelector.TaggedWith(tags), Readiness.FactsOf(d))
    ensures var r := Reload(ByFile(), TargetScope, [], OneFile([ScopeSelector.TaggedWith(tags)]), 0, clock);
            !Affected(d, r.After(), [], touched, {}) && Winner(r.After(), Readiness.FactsOf(d)).Some?
  {
    var leaf := ScopeSelector.TaggedWith(tags);
    var t: Target := Row(0, "t", ScopedTo([leaf]), "targets/t.yaml", true, clock(0));
    OneFileLoads([], [leaf], 0, clock);
    OneTargetNotSeen(d, t, leaf, touched);
    OneTarget(t, leaf, Readiness.FactsOf(d));
  }
}
