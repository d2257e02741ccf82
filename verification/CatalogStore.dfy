/** The catalog tables as the loader updates them in place, and the all-or-nothing reload. */
module CatalogStore {
  import opened Prelude
  import opened CatalogLoader
  import opened CatalogMirror
  import ScopeSelector

  lemma {:induction false} DeclsPrefix<K, B>(files: seq<SourceFile<K, B>>, i: nat)
    requires i <= |files|
    ensures DeclsOf(files[..i]) <= DeclsOf(files)
    decreases |files|
  {
    if i == |files| {
      assert files[..i] == files;
    } else {
      var most := files[..|files| - 1];
      DeclsPrefix(most, i);
      assert most[..i] == files[..i];
    }
  }

  lemma DeclsSnoc<K, B>(files: seq<SourceFile<K, B>>, i: nat)
    requires i < |files|
    ensures DeclsOf(files[..i + 1]) ==
            DeclsOf(files[..i]) + (if files[i].doc.Ok? then FileDecls(files[i].path, files[i].doc.value) else [])
  {
    assert files[..i + 1][..i] == files[..i];
  }

  lemma FileIsThere<K, B>(files: seq<SourceFile<K, B>>, i: nat)
    requires i < |files|
    ensures HasFile(files, files[i].path)
  {
    assert files[i] in files;
  }

  /** A table that already took in `done` answers lookups of other keys as before. */
  lemma ConflictIsAboutTheOldRow<K, B>(p: Policy<B>, rows: seq<Row<K, B>>, done: seq<Decl<K, B>>, d: Decl<K, B>,
                                       next: nat, clock: nat -> int)
    requires KeysUnique(rows) && DistinctKeys(done) && !Declared(done, d.key)
    ensures Conflicting(p, UpsertAll(rows, done, next, clock), d) == Conflicting(p, rows, d)
  {
    var grown := UpsertAll(rows, done, next, clock);
    UpsertAllGrows(rows, done, next, clock);
    var i := Find(rows, d.key);
    if i < |rows| {
      assert grown[i] == rows[i];
      FindIsTheRow(grown, i);
    } else {
      forall k | 0 <= k < |grown| ensures grown[k].key != d.key {
        assert k < |rows| ==> grown[k].key == rows[k].key;
      }
    }
  }

  // ---- what the load loop keeps --------------------------------------------

  /** No key repeats and no live row refuses its new content. */
  ghost predicate Clean<K, B>(p: Policy<B>, rows: seq<Row<K, B>>, decls: seq<Decl<K, B>>) {
    DistinctKeys(decls) && forall i {:trigger Conflicting(p, rows, decls[i])} :: 0 <= i < |decls| ==>
      !Conflicting(p, rows, decls[i])
  }

  lemma CleanPrefix<K, B>(p: Policy<B>, rows: seq<Row<K, B>>, decls: seq<Decl<K, B>>, all: seq<Decl<K, B>>)
    requires decls <= all
    ensures Clean(p, rows, all) ==> Clean(p, rows, decls)
  {
    assert forall i :: 0 <= i < |decls| ==> decls[i] == all[i];
  }

  lemma CleanSnoc<K, B>(p: Policy<B>, rows: seq<Row<K, B>>, decls: seq<Decl<K, B>>, d: Decl<K, B>)
    requires Clean(p, rows, decls)
    ensures Clean(p, rows, decls + [d]) <==> !Declared(decls, d.key) && !Conflicting(p, rows, d)
  {
    var all := decls + [d];
    assert all[|decls|] == d && forall i :: 0 <= i < |decls| ==> all[i] == decls[i];
  }

  /** What the load loop has achieved after taking in `decls`. */
  ghost predicate Progress<K, B>(p: Policy<B>, start: seq<Row<K, B>>, next: nat, clock: nat -> int,
                                 decls: seq<Decl<K, B>>, rows: seq<Row<K, B>>, nextId: nat, deltas: seq<Delta<K>>)
  {
    && rows == UpsertAll(start, decls, next, clock)
    && nextId == next + |rows| - |start|
    && deltas == DeltasOf(start, decls, next, clock)
    && Clean(p, start, decls)
  }

  /** A table as a value: its rows and the next id of its sequence. */
  datatype Snapshot<K, B> = Snapshot(rows: seq<Row<K, B>>, nextId: nat)

  ghost predicate LoadedFrom<K, B>(before: Snapshot<K, B>, after: Snapshot<K, B>, p: Policy<B>,
                                  files: seq<SourceFile<K, B>>, clock: nat -> int)
  {
    && after.rows == LoadedRows(p, before.rows, files, before.nextId, clock)
    && after.nextId == before.nextId + |after.rows| - |before.rows|
  }

  ghost function DeltasFrom<K, B>(before: Snapshot<K, B>, p: Policy<B>, files: seq<SourceFile<K, B>>,
                                  clock: nat -> int): seq<Delta<K>>
  {
    LoadedDeltas(p, before.rows, files, before.nextId, clock)
  }

  /** A file that the loop refuses makes the whole load fail. */
  lemma RefusedFile<K, B>(p: Policy<B>, rows: seq<Row<K, B>>, files: seq<SourceFile<K, B>>, i: nat)
    requires i < |files| && files[i].doc.Ok?
    requires !Clean(p, rows, DeclsOf(files[..i]) + FileDecls(files[i].path, files[i].doc.value))
    ensures !Loadable(p, rows, files) && HasFile(files, files[i].path)
  {
    FileIsThere(files, i);
    DeclsSnoc(files, i);
    DeclsPrefix(files, i + 1);
    CleanPrefix(p, rows, DeclsOf(files[..i + 1]), DeclsOf(files));
  }

  class CatalogTable<K(==), B(==)> {
    const policy: Policy<B>
    var rows: seq<Row<K, B>>
    var nextId: nat

    constructor (policy: Policy<B>)
      ensures this.policy == policy && rows == [] && nextId == 0
    {
      this.policy, rows, nextId := policy, [], 0;
    }

    function Contents(): Snapshot<K, B>
      reads this
    {
      Snapshot(rows, nextId)
    }

    /** What a rolled-back transaction leaves behind. */
    method Restore(s: Snapshot<K, B>)
      modifies this
      ensures Contents() == s
    {
      rows, nextId := s.rows, s.nextId;
    }

    /** Inserts the entity, or updates the stored row in place and brings it back to life. */
    method UpsertRow(d: Decl<K, B>, clock: nat -> int) returns (delta: Delta<K>)
      modifies this
      ensures rows == Upsert(old(rows), d, old(nextId), clock)
      ensures delta == UpsertDelta(old(rows), d, old(nextId))
      ensures nextId == old(nextId) + |rows| - |old(rows)|
    {
      var i := Find(rows, d.key);
      if i == |rows| {
        rows := rows + [Row(nextId, d.key, d.body, d.file, true, clock(nextId))];
        delta := Delta(nextId, d.key, Loaded);
        nextId := nextId + 1;
      } else {
        var existing := rows[i];
        var changed := !existing.live || existing.body != d.body || existing.file != d.file;
        rows := rows[i := existing.(body := d.body, file := d.file, live := true)];
        delta := Delta(existing.id, d.key, if changed then Loaded else Unaltered);
      }
    }

    /** The soft-delete loop over live rows that this load no longer backs. */
    method RetireStale(decls: seq<Decl<K, B>>, paths: set<string>) returns (deltas: seq<Delta<K>>)
      modifies this`rows
      ensures rows == RetireAll(policy, old(rows), decls, paths)
      ensures deltas == Removals(policy, old(rows), decls, paths)
    {
      deltas := [];
      for i := 0 to |rows|
        invariant |rows| == |old(rows)|
        invariant forall k :: 0 <= k < i ==> rows[k] == Retire(policy, old(rows)[k], decls, paths)
        invariant forall k :: i <= k < |rows| ==> rows[k] == old(rows)[k]
        invariant deltas == Removals(policy, old(rows)[..i], decls, paths)
      {
        var r := rows[i];
        assert old(rows)[..i + 1][..i] == old(rows)[..i];
        if Stale(policy, r, decls, paths) {
          rows := rows[i := r.(live := false)];
          deltas := deltas + [Delta(r.id, r.key, Removed)];
        }
      }
      assert old(rows)[..|old(rows)|] == old(rows);
    }

    /** Takes in one declaration, unless its key repeats or its row refuses the content. */
    method LoadEntry(d: Decl<K, B>, taken: seq<Decl<K, B>>, report: seq<Delta<K>>, clock: nat -> int,
                     ghost start: seq<Row<K, B>>, ghost next: nat)
      returns (r: Result<Delta<K>, LoadError>)
      requires KeysUnique(start) && Progress(policy, start, next, clock, taken, rows, nextId, report)
      modifies this
      ensures r.Ok? <==> Clean(policy, start, taken + [d])
      ensures r.Err? ==> r.error.path == d.file
      ensures r.Ok? ==> Progress(policy, start, next, clock, taken + [d], rows, nextId, report + [r.value])
    {
      CleanSnoc(policy, start, taken, d);
      if Declared(taken, d.key) {
        return Err(DuplicateKey(d.file));
      }
      ConflictIsAboutTheOldRow(policy, start, taken, d, next, clock);
      if Conflicting(policy, rows, d) {
        return Err(ContentConflict(d.file));
      }
      UpsertAllSnoc(start, taken, d, next, clock);
      DeltasOfSnoc(start, taken, d, next, clock);
      var delta := UpsertRow(d, clock);
      r := Ok(delta);
    }

    /** Takes in the entries of one file, or stops at the first one that is refused. */
    method LoadFile(f: SourceFile<K, B>, decls: seq<Decl<K, B>>, deltas: seq<Delta<K>>, clock: nat -> int,
                    ghost start: seq<Row<K, B>>, ghost next: nat)
      returns (r: Result<(seq<Decl<K, B>>, seq<Delta<K>>), LoadError>)
      requires f.doc.Ok? && KeysUnique(start) && Progress(policy, start, next, clock, decls, rows, nextId, deltas)
      modifies this
      ensures r.Ok? ==> r.value.0 == decls + FileDecls(f.path, f.doc.value)
      ensures r.Ok? ==> Progress(policy, start, next, clock, r.value.0, rows, nextId, r.value.1)
      ensures r.Err? ==> !Clean(policy, start, decls + FileDecls(f.path, f.doc.value)) && r.error.path == f.path
    {
      var taken, report := decls, deltas;
      ghost var all := decls + FileDecls(f.path, f.doc.value);
      for j := 0 to |f.doc.value|
        invariant |taken| == |decls| + j && taken <= all
        invariant Progress(policy, start, next, clock, taken, rows, nextId, report)
      {
        var d := Decl(f.doc.value[j].key, f.doc.value[j].body, f.path);
        assert all[|taken|] == d && taken + [d] <= all;
        var out := LoadEntry(d, taken, report, clock, start, next);
        if out.Err? {
          CleanPrefix(policy, start, taken + [d], all);
          return Err(out.error);
        }
        taken, report := taken + [d], report + [out.value];
      }
      assert taken == all;
      r := Ok((taken, report));
    }

    /** Takes in all files in order, or stops at the first invalid or refused one. */
    method LoadFiles(files: seq<SourceFile<K, B>>, clock: nat -> int)
      returns (r: Result<(seq<Decl<K, B>>, seq<Delta<K>>), LoadError>)
      requires KeysUnique(rows)
      modifies this
      ensures r.Ok? <==> Loadable(policy, old(rows), files)
      ensures r.Err? ==> HasFile(files, r.error.path)
      ensures r.Ok? ==> r.value.0 == DeclsOf(files)
      ensures r.Ok? ==> Progress(policy, old(rows), old(nextId), clock, r.value.0, rows, nextId, r.value.1)
    {
      ghost var start, next := rows, nextId;
      var decls: seq<Decl<K, B>> := [];
      var deltas: seq<Delta<K>> := [];
      for i := 0 to |files|
        invariant forall k :: 0 <= k < i ==> files[k].doc.Ok?
        invariant decls == DeclsOf(files[..i])
        invariant Progress(policy, start, next, clock, decls, rows, nextId, deltas)
      {
        var f := files[i];
        if f.doc.Err? {
          FileIsThere(files, i);
          return Err(InvalidFile(f.path, f.doc.error));
        }
        var taken := LoadFile(f, decls, deltas, clock, start, next);
        if taken.Err? {
          RefusedFile(policy, start, files, i);
          return Err(taken.error);
        }
        DeclsSnoc(files, i);
        decls, deltas := taken.value.0, taken.value.1;
      }
      assert files[..|files|] == files;
      r := Ok((decls, deltas));
    }

    /**
     One load pass. It reports an error exactly when some file is invalid, some key is declared
     twice, or a live row refuses new content; then the caller has to roll back.
    */
    method Load(files: seq<SourceFile<K, B>>, clock: nat -> int) returns (r: Result<seq<Delta<K>>, LoadError>)
      requires KeysUnique(rows)
      modifies this
      ensures r.Ok? <==> Loadable(policy, old(rows), files)
      ensures r.Err? ==> HasFile(files, r.error.path)
      ensures r.Ok? ==> LoadedFrom(old(Contents()), Contents(), policy, files, clock) && KeysUnique(rows)
      ensures r.Ok? ==> r.value == DeltasFrom(old(Contents()), policy, files, clock)
    {
      ghost var start, next := rows, nextId;
      var taken := LoadFiles(files, clock);
      if taken.Err? {
        return Err(taken.error);
      }
      LoadBringsEveryDeclarationLive(policy, start, files, next, clock);
      var paths := set i | 0 <= i < |files| :: files[i].path;
      var removed := RetireStale(taken.value.0, paths);
      r := Ok(taken.value.1 + removed);
    }
  }

  // ---- the whole catalog ---------------------------------------------------

  datatype TargetBody = TargetBody(platformFamily: string, targetVersion: string, scope: ScopeSelector.Selector,
                                   validFrom: Option<int>, validUntil: Option<int>, notes: Option<string>)
  datatype PackageBody = PackageBody(sha256: string, byteSize: nat, signedBy: string, releaseDate: Option<int>,
                                     downloadUrl: Option<string>, notes: Option<string>)
  datatype EdgeBody = EdgeBody(weight: nat, notes: Option<string>)
  datatype PrerequisiteBody = PrerequisiteBody(appliesTo: ScopeSelector.Selector, predicateText: string,
                                               severity: string, evaluable: bool)

  type PackageKey = (string, string, string)
  type EdgeKey = (string, string, string)

  datatype CatalogTree = CatalogTree(
    targets: seq<SourceFile<string, TargetBody>>, packages: seq<SourceFile<PackageKey, PackageBody>>,
    upgradePaths: seq<SourceFile<EdgeKey, EdgeBody>>, prerequisites: seq<SourceFile<string, PrerequisiteBody>>)

  datatype Audit =
    | TargetChanged(target: Delta<string>)
    | PackageChanged(package: Delta<PackageKey>)
    | EdgeChanged(edge: Delta<EdgeKey>)
    | PrerequisiteChanged(prerequisite: Delta<string>)
    | DirtyReload
    | ReloadFailed(path: string)

  /** The deltas that changed something; only these are audited. */
  function Changes<K>(deltas: seq<Delta<K>>): seq<Delta<K>> {
    if deltas == [] then []
    else
      var most, last := Changes(deltas[..|deltas| - 1]), deltas[|deltas| - 1];
      if last.action == Unaltered then most else most + [last]
  }

  function Audits<K>(deltas: seq<Delta<K>>, wrap: Delta<K> -> Audit): (r: seq<Audit>)
    ensures |r| == |Changes(deltas)|
    ensures forall i :: 0 <= i < |r| ==> r[i] == wrap(Changes(deltas)[i])
  {
    var changes := Changes(deltas);
    seq(|changes|, i requires 0 <= i < |changes| => wrap(changes[i]))
  }

  function AuditsOf(targets: seq<Delta<string>>, packages: seq<Delta<PackageKey>>,
                    edges: seq<Delta<EdgeKey>>, prerequisites: seq<Delta<string>>): seq<Audit>
  {
    Audits(targets, d => TargetChanged(d)) + Audits(packages, d => PackageChanged(d)) +
    Audits(edges, d => EdgeChanged(d)) + Audits(prerequisites, d => PrerequisiteChanged(d))
  }

  /** Loading an unchanged tree again writes no audit row. */
  lemma ReloadingIsSilent<K, B>(p: Policy<B>, rows: seq<Row<K, B>>, files: seq<SourceFile<K, B>>,
                                next: nat, clock: nat -> int, laterNext: nat, laterClock: nat -> int)
    requires KeysUnique(rows) && Loadable(p, rows, files)
    ensures Changes(LoadedDeltas(p, LoadedRows(p, rows, files, next, clock), files, laterNext, laterClock)) == []
  {
    LoadingTwiceChangesNothing(p, rows, files, next, clock, laterNext, laterClock);
    NothingChanged(LoadedDeltas(p, LoadedRows(p, rows, files, next, clock), files, laterNext, laterClock));
  }

  lemma {:induction false} NothingChanged<K>(deltas: seq<Delta<K>>)
    requires forall i :: 0 <= i < |deltas| ==> deltas[i].action == Unaltered
    ensures Changes(deltas) == []
  {
    if deltas == [] {
    } else {
      NothingChanged(deltas[..|deltas| - 1]);
    }
  }

  function ByFile<B>(): Policy<B> {
    Policy((b: B) => "", false)
  }

  function PackagePolicy(): Policy<PackageBody> {
    Policy((b: PackageBody) => b.sha256, false)
  }

  function EdgePolicy(): Policy<EdgeBody> {
    Policy((b: EdgeBody) => "", true)
  }

  // ---- what a reload is worth ----------------------------------------------

  datatype CatalogState = CatalogState(
    targets: Snapshot<string, TargetBody>, packages: Snapshot<PackageKey, PackageBody>,
    edges: Snapshot<EdgeKey, EdgeBody>, prerequisites: Snapshot<string, PrerequisiteBody>)

  ghost predicate AllKeysUnique(t: CatalogState) {
    && KeysUnique(t.targets.rows) && KeysUnique(t.packages.rows)
    && KeysUnique(t.edges.rows) && KeysUnique(t.prerequisites.rows)
  }

  ghost predicate Accepts(t: CatalogState, tree: CatalogTree) {
    && Loadable(ByFile(), t.targets.rows, tree.targets)
    && Loadable(PackagePolicy(), t.packages.rows, tree.packages)
    && Loadable(EdgePolicy(), t.edges.rows, tree.upgradePaths)
    && Loadable(ByFile(), t.prerequisites.rows, tree.prerequisites)
  }

  ghost predicate AllLoaded(before: CatalogState, after: CatalogState, tree: CatalogTree, clock: nat -> int) {
    && LoadedFrom(before.targets, after.targets, ByFile(), tree.targets, clock)
    && LoadedFrom(before.packages, after.packages, PackagePolicy(), tree.packages, clock)
    && LoadedFrom(before.edges, after.edges, EdgePolicy(), tree.upgradePaths, clock)
    && LoadedFrom(before.prerequisites, after.prerequisites, ByFile(), tree.prerequisites, clock)
  }

  /** The audit rows that a load of this tree is worth. */
  ghost function Report(t: CatalogState, tree: CatalogTree, clock: nat -> int): seq<Audit> {
    AuditsOf(DeltasFrom(t.targets, ByFile(), tree.targets, clock),
             DeltasFrom(t.packages, PackagePolicy(), tree.packages, clock),
             DeltasFrom(t.edges, EdgePolicy(), tree.upgradePaths, clock),
             DeltasFrom(t.prerequisites, ByFile(), tree.prerequisites, clock))
  }

  ghost function Tail(t: CatalogState, tree: CatalogTree, clock: nat -> int, dirty: bool): seq<Audit> {
    Report(t, tree, clock) + (if dirty then [DirtyReload] else [])
  }

  ghost predicate InTree(tree: CatalogTree, path: string) {
    || HasFile(tree.targets, path) || HasFile(tree.packages, path)
    || HasFile(tree.upgradePaths, path) || HasFile(tree.prerequisites, path)
  }

  /** No live package is listed with another checksum. */
  ghost predicate ChecksumsAgree(rows: seq<Row<PackageKey, PackageBody>>,
                                 files: seq<SourceFile<PackageKey, PackageBody>>)
  {
    forall r, f, e :: r in rows && r.live && f in files && f.doc.Ok? && e in f.doc.value && e.key == r.key ==>
      e.body.sha256 == r.body.sha256
  }

  /** Every table is what its files make of it, the edges key by key and the other three by file. */
  ghost predicate AllRefreshed(before: CatalogState, after: CatalogState, tree: CatalogTree, clock: nat -> int) {
    && Refreshed(before.targets.rows, after.targets.rows, tree.targets, false, before.targets.nextId, clock)
    && Refreshed(before.packages.rows, after.packages.rows, tree.packages, false, before.packages.nextId, clock)
    && Refreshed(before.edges.rows, after.edges.rows, tree.upgradePaths, true, before.edges.nextId, clock)
    && Refreshed(before.prerequisites.rows, after.prerequisites.rows, tree.prerequisites, false,
                 before.prerequisites.nextId, clock)
  }

  /** The audit rows of a reload tell what happened to the rows of each table, once, and whether the tree was dirty. */
  ghost predicate AuditsExactly(before: CatalogState, after: CatalogState, tail: seq<Audit>, dirty: bool) {
    && (forall e :: TargetChanged(e) in tail <==> Tells(before.targets.rows, after.targets.rows, e))
    && (forall e :: PackageChanged(e) in tail <==> Tells(before.packages.rows, after.packages.rows, e))
    && (forall e :: EdgeChanged(e) in tail <==> Tells(before.edges.rows, after.edges.rows, e))
    && (forall e :: PrerequisiteChanged(e) in tail <==> Tells(before.prerequisites.rows, after.prerequisites.rows, e))
    && (DirtyReload in tail <==> dirty) && (forall path :: ReloadFailed(path) !in tail)
    && Distinct(tail)
  }

  lemma ReloadsIff(t: CatalogState, tree: CatalogTree)
    requires AllKeysUnique(t)
    ensures Accepts(t, tree) <==>
            && Sound(tree.targets) && Sound(tree.packages) && Sound(tree.upgradePaths) && Sound(tree.prerequisites)
            && ChecksumsAgree(t.packages.rows, tree.packages)
  {
    LoadableIff(ByFile(), t.targets.rows, tree.targets);
    LoadableIff(PackagePolicy(), t.packages.rows, tree.packages);
    LoadableIff(EdgePolicy(), t.edges.rows, tree.upgradePaths);
    LoadableIff(ByFile(), t.prerequisites.rows, tree.prerequisites);
  }

  lemma ReloadRefreshes(before: CatalogState, after: CatalogState, tree: CatalogTree, clock: nat -> int)
    requires AllKeysUnique(before) && Accepts(before, tree) && AllLoaded(before, after, tree, clock)
    ensures AllRefreshed(before, after, tree, clock)
  {
    LoadRefreshes(ByFile(), before.targets.rows, tree.targets, before.targets.nextId, clock);
    LoadRefreshes(PackagePolicy(), before.packages.rows, tree.packages, before.packages.nextId, clock);
    LoadRefreshes(EdgePolicy(), before.edges.rows, tree.upgradePaths, before.edges.nextId, clock);
    LoadRefreshes(ByFile(), before.prerequisites.rows, tree.prerequisites, before.prerequisites.nextId, clock);
  }

  lemma ReloadMirrors(before: CatalogState, after: CatalogState, tree: CatalogTree, clock: nat -> int)
    requires AllRefreshed(before, after, tree, clock)
    ensures Mirrors(after.edges.rows, tree.upgradePaths)
    ensures Mirrors(after.targets.rows, tree.targets) <==> NothingLeftOver(before.targets.rows, tree.targets)
    ensures Mirrors(after.packages.rows, tree.packages) <==> NothingLeftOver(before.packages.rows, tree.packages)
    ensures Mirrors(after.prerequisites.rows, tree.prerequisites) <==>
            NothingLeftOver(before.prerequisites.rows, tree.prerequisites)
  {
    MirrorsIff(before.targets.rows, after.targets.rows, tree.targets, false, before.targets.nextId, clock);
    MirrorsIff(before.packages.rows, after.packages.rows, tree.packages, false, before.packages.nextId, clock);
    MirrorsIff(before.edges.rows, after.edges.rows, tree.upgradePaths, true, before.edges.nextId, clock);
    MirrorsIff(before.prerequisites.rows, after.prerequisites.rows, tree.prerequisites, false,
               before.prerequisites.nextId, clock);
  }

  /** The audited deltas are the changes among them, in order. */
  lemma {:induction false} ChangesExactly<K>(deltas: seq<Delta<K>>)
    ensures forall e :: e in Changes(deltas) <==> e in deltas && e.action != Unaltered
    ensures Distinct(deltas) ==> Distinct(Changes(deltas))
  {
    if deltas == [] {
    } else {
      ChangesExactly(deltas[..|deltas| - 1]);
    }
  }

  /** The audit rows of one table, of one kind and in one wrapping. */
  ghost predicate WrapsChanges<K(!new)>(audits: seq<Audit>, deltas: seq<Delta<K>>, wrap: Delta<K> -> Audit,
                                        kind: Audit -> bool)
  {
    && (forall e :: wrap(e) in audits <==> e in deltas && e.action != Unaltered)
    && (forall a :: a in audits ==> kind(a)) && Distinct(audits)
  }

  lemma AuditsWrapChanges<K(!new)>(deltas: seq<Delta<K>>, wrap: Delta<K> -> Audit, kind: Audit -> bool)
    requires Distinct(deltas) && (forall d, e :: wrap(d) == wrap(e) ==> d == e) && forall e :: kind(wrap(e))
    ensures WrapsChanges(Audits(deltas, wrap), deltas, wrap, kind)
  {
    ChangesExactly(deltas);
    var audits := Audits(deltas, wrap);
    forall e ensures wrap(e) in audits <==> e in deltas && e.action != Unaltered {
      if e in Changes(deltas) {
        var i :| 0 <= i < |Changes(deltas)| && Changes(deltas)[i] == e;
        assert audits[i] == wrap(e);
      }
    }
  }

  lemma ReloadAudits(before: CatalogState, after: CatalogState, tree: CatalogTree, clock: nat -> int, dirty: bool)
    requires AllKeysUnique(before) && Accepts(before, tree) && AllLoaded(before, after, tree, clock)
    ensures AuditsExactly(before, after, Tail(before, tree, clock, dirty), dirty)
  {
    var a := DeltasFrom(before.targets, ByFile(), tree.targets, clock);
    var b := DeltasFrom(before.packages, PackagePolicy(), tree.packages, clock);
    var c := DeltasFrom(before.edges, EdgePolicy(), tree.upgradePaths, clock);
    var d := DeltasFrom(before.prerequisites, ByFile(), tree.prerequisites, clock);
    LoadReportsExactly(ByFile(), before.targets.rows, tree.targets, before.targets.nextId, clock);
    LoadReportsExactly(PackagePolicy(), before.packages.rows, tree.packages, before.packages.nextId, clock);
    LoadReportsExactly(EdgePolicy(), before.edges.rows, tree.upgradePaths, before.edges.nextId, clock);
    LoadReportsExactly(ByFile(), before.prerequisites.rows, tree.prerequisites, before.prerequisites.nextId, clock);
    FourKindsOfAudits(a, b, c, d, dirty);
  }

  lemma FourKindsOfAudits(a: seq<Delta<string>>, b: seq<Delta<PackageKey>>, c: seq<Delta<EdgeKey>>,
                          d: seq<Delta<string>>, dirty: bool)
    requires Distinct(a) && Distinct(b) && Distinct(c) && Distinct(d)
    ensures var tail := AuditsOf(a, b, c, d) + (if dirty then [DirtyReload] else []);
            && (forall e :: TargetChanged(e) in tail <==> e in a && e.action != Unaltered)
            && (forall e :: PackageChanged(e) in tail <==> e in b && e.action != Unaltered)
            && (forall e :: EdgeChanged(e) in tail <==> e in c && e.action != Unaltered)
            && (forall e :: PrerequisiteChanged(e) in tail <==> e in d && e.action != Unaltered)
            && (DirtyReload in tail <==> dirty) && (forall path :: ReloadFailed(path) !in tail) && Distinct(tail)
  {
    var t, p := Audits(a, d => TargetChanged(d)), Audits(b, d => PackageChanged(d));
    var e, q := Audits(c, d => EdgeChanged(d)), Audits(d, d => PrerequisiteChanged(d));
    AuditsWrapChanges(a, d => TargetChanged(d), (x: Audit) => x.TargetChanged?);
    AuditsWrapChanges(b, d => PackageChanged(d), (x: Audit) => x.PackageChanged?);
    AuditsWrapChanges(c, d => EdgeChanged(d), (x: Audit) => x.EdgeChanged?);
    AuditsWrapChanges(d, d => PrerequisiteChanged(d), (x: Audit) => x.PrerequisiteChanged?);
    var last := if dirty then [DirtyReload] else [];
    assert AuditsOf(a, b, c, d) + last == t + p + e + q + last;
    OneAfterTheOther(t, p, e, q, last);
  }

  lemma OneAfterTheOther(t: seq<Audit>, p: seq<Audit>, e: seq<Audit>, q: seq<Audit>, last: seq<Audit>)
    requires forall x :: x in t ==> x.TargetChanged?
    requires forall x :: x in p ==> x.PackageChanged?
    requires forall x :: x in e ==> x.EdgeChanged?
    requires forall x :: x in q ==> x.PrerequisiteChanged?
    requires forall x :: x in last ==> x == DirtyReload
    requires Distinct(t) && Distinct(p) && Distinct(e) && Distinct(q) && |last| <= 1
    ensures Distinct(t + p + e + q + last)
    ensures forall x :: x in t + p + e + q + last <==>
              match x
              case TargetChanged(_) => x in t
              case PackageChanged(_) => x in p
              case EdgeChanged(_) => x in e
              case PrerequisiteChanged(_) => x in q
              case DirtyReload => |last| == 1
              case ReloadFailed(_) => false
  {
    assert |last| == 1 ==> last[0] in last;
    DistinctConcat(t, p);
    DistinctConcat(t + p, e);
    DistinctConcat(t + p + e, q);
    DistinctConcat(t + p + e + q, last);
  }

  class FirmwareCatalog {
    const targets: CatalogTable<string, TargetBody>
    const packages: CatalogTable<PackageKey, PackageBody>
    const edges: CatalogTable<EdgeKey, EdgeBody>
    const prerequisites: CatalogTable<string, PrerequisiteBody>
    var audits: seq<Audit>

    ghost predicate Valid()
      reads this, targets, packages, edges, prerequisites
    {
      && KeysUnique(targets.rows) && KeysUnique(packages.rows)
      && KeysUnique(edges.rows) && KeysUnique(prerequisites.rows)
      && targets.policy == ByFile() && packages.policy == PackagePolicy()
      && edges.policy == EdgePolicy() && prerequisites.policy == ByFile()
      && Separate()
    }

    ghost predicate Separate() {
      var tables: seq<object> := [targets, packages, edges, prerequisites];
      && (forall i, j :: 0 <= i < j < |tables| ==> tables[i] != tables[j])
      && this as object !in tables
    }

    /** The four tables as values. */
    ghost function All(): CatalogState
      reads targets, packages, edges, prerequisites
    {
      CatalogState(targets.Contents(), packages.Contents(), edges.Contents(), prerequisites.Contents())
    }

    constructor ()
      ensures Valid() && audits == []
      ensures fresh(targets) && fresh(packages) && fresh(edges) && fresh(prerequisites)
    {
      targets := new CatalogTable(ByFile());
      packages := new CatalogTable(PackagePolicy());
      edges := new CatalogTable(EdgePolicy());
      prerequisites := new CatalogTable(ByFile());
      audits := [];
    }

    /** Loads the four trees in turn; the first error leaves the later tables alone. */
    method LoadAll(tree: CatalogTree, clock: nat -> int) returns (r: Result<seq<Audit>, LoadError>)
      requires Valid()
      modifies targets, packages, edges, prerequisites
      ensures r.Ok? <==> old(Accepts(All(), tree))
      ensures r.Err? ==> InTree(tree, r.error.path)
      ensures r.Ok? ==> Valid()
      ensures r.Ok? ==> AllLoaded(old(All()), All(), tree, clock) && r.value == old(Report(All(), tree, clock))
    {
      ghost var before := All();
      var a := targets.Load(tree.targets, clock);
      if a.Err? { return Err(a.error); }
      var b := packages.Load(tree.packages, clock);
      if b.Err? { return Err(b.error); }
      var c := edges.Load(tree.upgradePaths, clock);
      if c.Err? { return Err(c.error); }
      var d := prerequisites.Load(tree.prerequisites, clock);
      if d.Err? { return Err(d.error); }
      r := Ok(AuditsOf(a.value, b.value, c.value, d.value));
      assert AllLoaded(before, All(), tree, clock);
    }

    /**
     A reload is all or nothing. It succeeds exactly when the tree is not dirty in production, every
     file is valid, no key is listed twice, and no live package is listed with another checksum; if
     not, every table is as it was and one failure row names the root or the file at fault. After a
     success every row is what the files make of it: the live edges are exactly the edges of the
     tree, the other tables mirror their files unless a row is left over, and the audit rows tell
     exactly what happened to the rows.
    */
    method ReloadSafe(tree: CatalogTree, root: string, production: bool, dirty: bool, clock: nat -> int)
      returns (success: bool)
      requires Valid()
      modifies this, targets, packages, edges, prerequisites
      ensures Valid()
      ensures success <==>
              && !(dirty && production) && Sound(tree.targets) && Sound(tree.packages) && Sound(tree.upgradePaths)
              && Sound(tree.prerequisites) && old(ChecksumsAgree(packages.rows, tree.packages))
      ensures !success ==> All() == old(All())
      ensures !success ==>
                exists path ::
                  && audits == old(audits) + [ReloadFailed(path)]
                  && if dirty && production then path == root else InTree(tree, path)
      ensures success ==> Mirrors(edges.rows, tree.upgradePaths)
      ensures success ==> (Mirrors(targets.rows, tree.targets) <==> old(NothingLeftOver(targets.rows, tree.targets)))
      ensures success ==>
                (Mirrors(packages.rows, tree.packages) <==> old(NothingLeftOver(packages.rows, tree.packages)))
      ensures success ==>
                (Mirrors(prerequisites.rows, tree.prerequisites) <==>
                 old(NothingLeftOver(prerequisites.rows, tree.prerequisites)))
      ensures success ==> AllRefreshed(old(All()), All(), tree, clock)
      ensures success ==> old(audits) <= audits && AuditsExactly(old(All()), All(), audits[|old(audits)|..], dirty)
      ensures success ==> LoadedFrom(old(targets.Contents()), targets.Contents(), targets.policy, tree.targets, clock)
      ensures success ==>
                LoadedFrom(old(packages.Contents()), packages.Contents(), packages.policy, tree.packages, clock)
      ensures success ==> LoadedFrom(old(edges.Contents()), edges.Contents(), edges.policy, tree.upgradePaths, clock)
      ensures success ==>
                LoadedFrom(old(prerequisites.Contents()), prerequisites.Contents(), prerequisites.policy,
                           tree.prerequisites, clock)
    {
      ghost var before := All();
      ReloadsIff(before, tree);
      success := Reload(tree, root, production, dirty, clock);
      if success {
        ReloadRefreshes(before, All(), tree, clock);
        ReloadMirrors(before, All(), tree, clock);
        ReloadAudits(before, All(), tree, clock, dirty);
      }
    }

    method Reload(tree: CatalogTree, root: string, production: bool, dirty: bool, clock: nat -> int)
      returns (success: bool)
      requires Valid()
      modifies this, targets, packages, edges, prerequisites
      ensures Valid()
      ensures success <==> !(dirty && production) && old(Accepts(All(), tree))
      ensures !success ==> All() == old(All())
      ensures !success ==>
                exists path ::
                  && audits == old(audits) + [ReloadFailed(path)]
                  && if dirty && production then path == root else InTree(tree, path)
      ensures success ==> AllLoaded(old(All()), All(), tree, clock)
      ensures success ==> audits == old(audits) + Tail(old(All()), tree, clock, dirty)
    {
      if dirty && production {
        audits := audits + [ReloadFailed(root)];
        return false;
      }
      var t, p, e, q := targets.Contents(), packages.Contents(), edges.Contents(), prerequisites.Contents();
      var out := LoadAll(tree, clock);
      if out.Err? {
        Rollback(t, p, e, q);
        audits := audits + [ReloadFailed(out.error.path)];
        return false;
      }
      audits := audits + out.value + (if dirty then [DirtyReload] else []);
      success := true;
    }

    method Rollback(t: Snapshot<string, TargetBody>, p: Snapshot<PackageKey, PackageBody>,
                    e: Snapshot<EdgeKey, EdgeBody>, q: Snapshot<string, PrerequisiteBody>)
      requires Separate()
      modifies targets, packages, edges, prerequisites
      ensures targets.Contents() == t && packages.Contents() == p && edges.Contents() == e
      ensures prerequisites.Contents() == q
    {
      targets.Restore(t);
      packages.Restore(p);
      edges.Restore(e);
      prerequisites.Restore(q);
    }
  }
}
