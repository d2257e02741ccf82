/**
 One catalog table and its load pass: insert, update in place, resurrect, and soft-delete what the
 files no longer back. Targets, packages and prerequisites go stale with their file; upgrade edges
 go stale edge by edge.
*/
module CatalogLoader {
  import opened Prelude

  datatype Row<K, B> = Row(id: nat, key: K, body: B, file: string, live: bool, loadedAt: int)

  datatype Decl<K, B> = Decl(key: K, body: B, file: string)

  datatype Entry<K, B> = Entry(key: K, body: B)

  /** A catalog file: its entries after parsing and schema validation, or why it was refused. */
  datatype SourceFile<K, B> = SourceFile(path: string, doc: Result<seq<Entry<K, B>>, string>)

  datatype DeltaAction = Loaded | Removed | Unaltered

  datatype Delta<K> = Delta(id: nat, key: K, action: DeltaAction)

  datatype LoadError =
    | InvalidFile(path: string, reason: string) | DuplicateKey(path: string) | ContentConflict(path: string)

  /**
   How a kind of entity is loaded: the content that a live row refuses to exchange (the checksum of
   a package; constant for the other kinds), and whether a row goes stale edge by edge or by file.
  */
  datatype Policy<!B> = Policy(fingerprint: B -> string, staleByKey: bool)

  // ---- the table -----------------------------------------------------------

  ghost predicate KeysUnique<K, B>(rows: seq<Row<K, B>>) {
    forall i, j :: 0 <= i < j < |rows| ==> rows[i].key != rows[j].key
  }

  ghost predicate IdsBelow<K, B>(rows: seq<Row<K, B>>, next: nat) {
    forall i :: 0 <= i < |rows| ==> rows[i].id < next
  }

  ghost predicate IdsUnique<K, B>(rows: seq<Row<K, B>>) {
    forall i, j :: 0 <= i < j < |rows| ==> rows[i].id != rows[j].id
  }

  /** The position of the row with this key, or the length of the table. */
  function Find<K(==), B>(rows: seq<Row<K, B>>, key: K): (i: nat)
    ensures i <= |rows|
    ensures i < |rows| ==> rows[i].key == key
    ensures forall j :: 0 <= j < i ==> rows[j].key != key
  {
    if rows == [] then 0
    else if rows[0].key == key then 0
    else
      var i := Find(rows[1..], key);
      assert forall j :: 1 <= j < i + 1 ==> rows[j] == rows[1..][j - 1];
      i + 1
  }

  predicate Matches<K(==), B(==)>(r: Row<K, B>, d: Decl<K, B>) {
    r.live && r.key == d.key && r.body == d.body && r.file == d.file
  }

  function Adopt<K, B>(r: Row<K, B>, d: Decl<K, B>): Row<K, B> {
    r.(body := d.body, file := d.file, live := true)
  }

  /**
   Declares one entity: a new row, stamped with the time of its insertion, or the stored row brought
   in line with the declaration.
  */
  function Upsert<K(==), B>(rows: seq<Row<K, B>>, d: Decl<K, B>, next: nat, clock: nat -> int): (r: seq<Row<K, B>>)
    ensures |rows| <= |r| <= |rows| + 1
  {
    var i := Find(rows, d.key);
    if i < |rows| then rows[i := Adopt(rows[i], d)]
    else rows + [Row(next, d.key, d.body, d.file, true, clock(next))]
  }

  function UpsertDelta<K(==), B(==)>(rows: seq<Row<K, B>>, d: Decl<K, B>, next: nat): Delta<K> {
    var i := Find(rows, d.key);
    if i < |rows| then Delta(rows[i].id, d.key, if Matches(rows[i], d) then Unaltered else Loaded)
    else Delta(next, d.key, Loaded)
  }

  predicate Conflicting<K(==), B>(p: Policy<B>, rows: seq<Row<K, B>>, d: Decl<K, B>) {
    var i := Find(rows, d.key);
    i < |rows| && rows[i].live && p.fingerprint(rows[i].body) != p.fingerprint(d.body)
  }

  predicate Declared<K(==), B>(decls: seq<Decl<K, B>>, key: K) {
    exists i :: 0 <= i < |decls| && decls[i].key == key
  }

  predicate DeclaredIn<K(==), B>(decls: seq<Decl<K, B>>, key: K, file: string) {
    exists i :: 0 <= i < |decls| && decls[i].key == key && decls[i].file == file
  }

  /** Does a live row lose its backing in this load? */
  predicate Stale<K(==), B>(p: Policy<B>, r: Row<K, B>, decls: seq<Decl<K, B>>, paths: set<string>) {
    r.live && if p.staleByKey then !DeclaredIn(decls, r.key, r.file) else r.file !in paths
  }

  // ---- specification of a load ---------------------------------------------

  /** All declarations, in file order, or the first error of the pass. */
  ghost function DeclsOf<K, B>(files: seq<SourceFile<K, B>>): seq<Decl<K, B>> {
    if files == [] then []
    else
      var most, f := DeclsOf(files[..|files| - 1]), files[|files| - 1];
      if f.doc.Ok? then most + FileDecls(f.path, f.doc.value) else most
  }

  function FileDecls<K, B>(path: string, entries: seq<Entry<K, B>>): (r: seq<Decl<K, B>>)
    ensures |r| == |entries|
    ensures forall i :: 0 <= i < |r| ==> r[i] == Decl(entries[i].key, entries[i].body, path)
  {
    seq(|entries|, i requires 0 <= i < |entries| => Decl(entries[i].key, entries[i].body, path))
  }

  ghost function PathsOf<K, B>(files: seq<SourceFile<K, B>>): set<string> {
    set i | 0 <= i < |files| :: files[i].path
  }

  ghost function UpsertAll<K, B>(rows: seq<Row<K, B>>, decls: seq<Decl<K, B>>, next: nat, clock: nat -> int)
    : (r: seq<Row<K, B>>)
    ensures |r| >= |rows|
  {
    if decls == [] then rows
    else
      var before := UpsertAll(rows, decls[..|decls| - 1], next, clock);
      Upsert(before, decls[|decls| - 1], next + |before| - |rows|, clock)
  }

  ghost function DeltasOf<K, B>(rows: seq<Row<K, B>>, decls: seq<Decl<K, B>>, next: nat,
                                clock: nat -> int): seq<Delta<K>>
  {
    if decls == [] then []
    else
      var most, d := decls[..|decls| - 1], decls[|decls| - 1];
      var before := UpsertAll(rows, most, next, clock);
      DeltasOf(rows, most, next, clock) + [UpsertDelta(before, d, next + |before| - |rows|)]
  }

  function Retire<K(==), B>(p: Policy<B>, r: Row<K, B>, decls: seq<Decl<K, B>>, paths: set<string>): Row<K, B> {
    if Stale(p, r, decls, paths) then r.(live := false) else r
  }

  ghost function RetireAll<K, B>(p: Policy<B>, rows: seq<Row<K, B>>, decls: seq<Decl<K, B>>, paths: set<string>)
    : (r: seq<Row<K, B>>)
    ensures |r| == |rows|
    ensures forall i :: 0 <= i < |rows| ==> r[i] == Retire(p, rows[i], decls, paths)
  {
    seq(|rows|, i requires 0 <= i < |rows| => Retire(p, rows[i], decls, paths))
  }

  ghost function Removals<K, B>(p: Policy<B>, rows: seq<Row<K, B>>, decls: seq<Decl<K, B>>, paths: set<string>)
    : seq<Delta<K>>
  {
    if rows == [] then []
    else
      var most, r := Removals(p, rows[..|rows| - 1], decls, paths), rows[|rows| - 1];
      if Stale(p, r, decls, paths) then most + [Delta(r.id, r.key, Removed)] else most
  }

  /** The pass meets no invalid file, no repeated key and no refused content. */
  ghost predicate Loadable<K, B>(p: Policy<B>, rows: seq<Row<K, B>>, files: seq<SourceFile<K, B>>) {
    && (forall i :: 0 <= i < |files| ==> files[i].doc.Ok?)
    && (forall i, j :: 0 <= i < j < |DeclsOf(files)| ==> DeclsOf(files)[i].key != DeclsOf(files)[j].key)
    && (forall i :: 0 <= i < |DeclsOf(files)| ==> !Conflicting(p, rows, DeclsOf(files)[i]))
  }

  ghost function LoadedRows<K, B>(p: Policy<B>, rows: seq<Row<K, B>>, files: seq<SourceFile<K, B>>, next: nat,
                                  clock: nat -> int)
    : seq<Row<K, B>>
  {
    RetireAll(p, UpsertAll(rows, DeclsOf(files), next, clock), DeclsOf(files), PathsOf(files))
  }

  ghost function LoadedDeltas<K, B>(p: Policy<B>, rows: seq<Row<K, B>>, files: seq<SourceFile<K, B>>, next: nat,
                                    clock: nat -> int)
    : seq<Delta<K>>
  {
    DeltasOf(rows, DeclsOf(files), next, clock) +
    Removals(p, UpsertAll(rows, DeclsOf(files), next, clock), DeclsOf(files), PathsOf(files))
  }

  // ---- facts about upserts -------------------------------------------------

  lemma {:induction false} UpsertAllSnoc<K, B>(rows: seq<Row<K, B>>, decls: seq<Decl<K, B>>, d: Decl<K, B>, next: nat,
                                               clock: nat -> int)
    ensures UpsertAll(rows, decls + [d], next, clock) ==
            Upsert(UpsertAll(rows, decls, next, clock), d, next + |UpsertAll(rows, decls, next, clock)| - |rows|, clock)
  {
    var all := decls + [d];
    assert all[..|all| - 1] == decls && all[|all| - 1] == d;
  }

  lemma {:induction false} DeltasOfSnoc<K, B>(rows: seq<Row<K, B>>, decls: seq<Decl<K, B>>, d: Decl<K, B>, next: nat,
                                              clock: nat -> int)
    ensures DeltasOf(rows, decls + [d], next, clock) ==
            DeltasOf(rows, decls, next, clock) +
            [UpsertDelta(UpsertAll(rows, decls, next, clock), d, next + |UpsertAll(rows, decls, next, clock)| - |rows|)]
  {
    var all := decls + [d];
    assert all[..|all| - 1] == decls && all[|all| - 1] == d;
  }

  ghost predicate DistinctKeys<K, B>(decls: seq<Decl<K, B>>) {
    forall i, j :: 0 <= i < j < |decls| ==> decls[i].key != decls[j].key
  }

  lemma FindIsTheRow<K, B>(rows: seq<Row<K, B>>, i: nat)
    requires KeysUnique(rows) && i < |rows|
    ensures Find(rows, rows[i].key) == i
  {
    var k := Find(rows, rows[i].key);
    assert k <= i;
  }

  lemma UpsertKeepsKeysUnique<K, B>(rows: seq<Row<K, B>>, d: Decl<K, B>, next: nat, clock: nat -> int)
    requires KeysUnique(rows)
    ensures KeysUnique(Upsert(rows, d, next, clock))
  {
  }

  ghost predicate HasKey<K, B>(rows: seq<Row<K, B>>, key: K) {
    exists i :: 0 <= i < |rows| && rows[i].key == key
  }

  /** Stored rows stay at their place and keep key, id and load time; the rows behind them are new and declared. */
  ghost predicate InPlace<K, B>(rows: seq<Row<K, B>>, decls: seq<Decl<K, B>>, after: seq<Row<K, B>>, next: nat) {
    && |rows| <= |after|
    && (forall i :: 0 <= i < |rows| ==>
          after[i].key == rows[i].key && after[i].id == rows[i].id && after[i].loadedAt == rows[i].loadedAt)
    && (forall i :: 0 <= i < |rows| && !Declared(decls, rows[i].key) ==> after[i] == rows[i])
    && (forall i :: |rows| <= i < |after| ==> Declared(decls, after[i].key) && after[i].id == next + i - |rows|)
  }

  /** Every declaration has a row, and every row with its key matches it. */
  ghost predicate Covered<K, B>(decls: seq<Decl<K, B>>, after: seq<Row<K, B>>) {
    && (forall i, d :: 0 <= i < |after| && d in decls && d.key == after[i].key ==> Matches(after[i], d))
    && (forall d :: d in decls ==> HasKey(after, d.key))
  }

  ghost predicate Grown<K, B>(rows: seq<Row<K, B>>, decls: seq<Decl<K, B>>, after: seq<Row<K, B>>, next: nat) {
    KeysUnique(after) && InPlace(rows, decls, after, next) && Covered(decls, after)
  }

  lemma {:induction false} UpsertAllGrows<K, B>(rows: seq<Row<K, B>>, decls: seq<Decl<K, B>>, next: nat,
                                                clock: nat -> int)
    requires KeysUnique(rows) && DistinctKeys(decls)
    ensures Grown(rows, decls, UpsertAll(rows, decls, next, clock), next)
  {
    if decls == [] {
      NothingDeclaredGrows(rows, next);
    } else {
      var most, d := decls[..|decls| - 1], decls[|decls| - 1];
      var before := UpsertAll(rows, most, next, clock);
      assert UpsertAll(rows, decls, next, clock) == Upsert(before, d, next + |before| - |rows|, clock);
      assert decls == most + [d];
      LastIsUndeclared(most, d);
      UpsertAllGrows(rows, most, next, clock);
      assert Grown(rows, most + [d], Upsert(before, d, next + |before| - |rows|, clock), next) by {
        UpsertGrows(rows, most, d, before, next, clock);
      }
    }
  }

  lemma NothingDeclaredGrows<K, B>(rows: seq<Row<K, B>>, next: nat)
    requires KeysUnique(rows)
    ensures Grown(rows, [], rows, next)
  {
  }

  lemma LastIsUndeclared<K, B>(most: seq<Decl<K, B>>, d: Decl<K, B>)
    requires DistinctKeys(most + [d])
    ensures !Declared(most, d.key) && DistinctKeys(most)
  {
    var all := most + [d];
    assert all[|most|] == d;
    assert forall i :: 0 <= i < |most| ==> all[i] == most[i];
  }

  lemma UpsertGrows<K, B>(rows: seq<Row<K, B>>, most: seq<Decl<K, B>>, d: Decl<K, B>, before: seq<Row<K, B>>, next: nat,
                          clock: nat -> int)
    requires Grown(rows, most, before, next) && !Declared(most, d.key)
    ensures Grown(rows, most + [d], Upsert(before, d, next + |before| - |rows|, clock), next)
  {
    UpsertKeepsKeysUnique(before, d, next + |before| - |rows|, clock);
    UpsertStaysInPlace(rows, most, d, before, next, clock);
    UpsertCoversOneMore(most, d, before, next + |before| - |rows|, clock);
  }

  lemma UpsertStaysInPlace<K, B>(rows: seq<Row<K, B>>, most: seq<Decl<K, B>>, d: Decl<K, B>, before: seq<Row<K, B>>,
                                 next: nat, clock: nat -> int)
    requires InPlace(rows, most, before, next)
    ensures InPlace(rows, most + [d], Upsert(before, d, next + |before| - |rows|, clock), next)
  {
    DeclaredSnoc(most, d);
  }

  /** Every key of the table is still there after an upsert, and so is the new one. */
  lemma UpsertKeepsKeys<K, B>(before: seq<Row<K, B>>, d: Decl<K, B>, next: nat, clock: nat -> int)
    ensures var after := Upsert(before, d, next, clock);
            HasKey(after, d.key) && forall key | HasKey(before, key) :: HasKey(after, key)
  {
    var after := Upsert(before, d, next, clock);
    forall key | HasKey(before, key) ensures HasKey(after, key) {
      var i :| 0 <= i < |before| && before[i].key == key;
      assert after[i].key == key;
    }
    assert after[Find(before, d.key)].key == d.key;
  }

  /** Rows that match their declaration go on matching it, and the new one matches its own. */
  lemma UpsertCoversOneMore<K, B>(most: seq<Decl<K, B>>, d: Decl<K, B>, before: seq<Row<K, B>>, next: nat,
                                  clock: nat -> int)
    requires KeysUnique(before) && !Declared(most, d.key) && Covered(most, before)
    ensures Covered(most + [d], Upsert(before, d, next, clock))
  {
    var after := Upsert(before, d, next, clock);
    UpsertKeepsKeys(before, d, next, clock);
    forall x | x in most ensures x.key != d.key {
      var i :| 0 <= i < |most| && most[i] == x;
    }
    forall i, x | 0 <= i < |after| && x in most + [d] && x.key == after[i].key ensures Matches(after[i], x) {
      if x in most {
        assert i < |before| && after[i] == before[i];
      } else {
        assert i == Find(before, d.key);
      }
    }
  }

  lemma DeclaredSnoc<K, B>(most: seq<Decl<K, B>>, d: Decl<K, B>)
    ensures forall key :: Declared(most + [d], key) <==> Declared(most, key) || key == d.key
  {
    forall key | Declared(most, key) ensures Declared(most + [d], key) {
      var i :| 0 <= i < |most| && most[i].key == key;
      assert (most + [d])[i].key == key;
    }
    assert (most + [d])[|most|] == d;
  }

  // ---- what a load achieves ------------------------------------------------

  lemma {:induction false} DeclaredFilesAreSeen<K, B>(files: seq<SourceFile<K, B>>)
    ensures forall d :: d in DeclsOf(files) ==> d.file in PathsOf(files)
  {
    if files == [] {
    } else {
      var most, last := files[..|files| - 1], files[|files| - 1];
      DeclaredFilesAreSeen(most);
      assert forall i :: 0 <= i < |most| ==> files[i] == most[i];
      assert last.path in PathsOf(files);
      forall d | d in DeclsOf(files) ensures d.file in PathsOf(files) {
        if d !in DeclsOf(most) {
          assert d in FileDecls(last.path, last.doc.value);
        }
      }
    }
  }

  lemma DeclaredByMember<K, B>(decls: seq<Decl<K, B>>, key: K)
    ensures Declared(decls, key) <==> exists d :: d in decls && d.key == key
  {
    if Declared(decls, key) {
      var i :| 0 <= i < |decls| && decls[i].key == key;
      assert decls[i] in decls;
    }
  }

  /** A declared row is never stale, under either policy. */
  lemma DeclaredIsNotStale<K, B>(p: Policy<B>, r: Row<K, B>, d: Decl<K, B>, files: seq<SourceFile<K, B>>)
    requires d in DeclsOf(files) && Matches(r, d)
    ensures !Stale(p, r, DeclsOf(files), PathsOf(files))
  {
    DeclaredFilesAreSeen(files);
    var i :| 0 <= i < |DeclsOf(files)| && DeclsOf(files)[i] == d;
    assert DeclaredIn(DeclsOf(files), r.key, r.file);
  }

  /**
   From a table with one row per key, a successful load keeps one row per key, keeps the identity
   and load time of every stored row, and leaves for every declaration a live row equal to it.
  */
  lemma LoadBringsEveryDeclarationLive<K, B>(p: Policy<B>, rows: seq<Row<K, B>>, files: seq<SourceFile<K, B>>,
                                             next: nat, clock: nat -> int)
    requires KeysUnique(rows) && Loadable(p, rows, files)
    ensures var after := LoadedRows(p, rows, files, next, clock);
            && KeysUnique(after) && |rows| <= |after|
            && (forall i :: 0 <= i < |rows| ==>
                  after[i].key == rows[i].key && after[i].id == rows[i].id && after[i].loadedAt == rows[i].loadedAt)
            && (forall d :: d in DeclsOf(files) ==> exists i :: 0 <= i < |after| && Matches(after[i], d))
  {
    var decls := DeclsOf(files);
    var grown := UpsertAll(rows, decls, next, clock);
    var after := LoadedRows(p, rows, files, next, clock);
    UpsertAllGrows(rows, decls, next, clock);
    forall d | d in decls ensures exists i :: 0 <= i < |after| && Matches(after[i], d) {
      var i :| 0 <= i < |grown| && grown[i].key == d.key;
      assert Matches(grown[i], d);
      DeclaredIsNotStale(p, grown[i], d, files);
      assert Matches(after[i], d);
    }
  }

  /** A live row is one that some declaration of this load states. */
  ghost predicate Stated<K, B>(r: Row<K, B>, decls: seq<Decl<K, B>>) {
    exists d :: d in decls && Matches(r, d)
  }

  /** The live rows are exactly the declared ones. */
  ghost predicate ExactlyDeclared<K, B>(rows: seq<Row<K, B>>, decls: seq<Decl<K, B>>) {
    && (forall i :: 0 <= i < |rows| && rows[i].live ==> Stated(rows[i], decls))
    && (forall d :: d in decls ==> exists i :: 0 <= i < |rows| && Matches(rows[i], d))
  }

  /** After a load of upgrade edges the live edges are exactly the declared ones. */
  lemma EdgeLoadIsExact<K, B>(p: Policy<B>, rows: seq<Row<K, B>>, files: seq<SourceFile<K, B>>, next: nat,
                              clock: nat -> int)
    requires KeysUnique(rows) && Loadable(p, rows, files) && p.staleByKey
    ensures ExactlyDeclared(LoadedRows(p, rows, files, next, clock), DeclsOf(files))
  {
    var decls := DeclsOf(files);
    var grown := UpsertAll(rows, decls, next, clock);
    var after := LoadedRows(p, rows, files, next, clock);
    UpsertAllGrows(rows, decls, next, clock);
    LoadBringsEveryDeclarationLive(p, rows, files, next, clock);
    forall i | 0 <= i < |after| && after[i].live ensures Stated(after[i], decls) {
      assert DeclaredIn(decls, grown[i].key, grown[i].file);
      var k :| 0 <= k < |decls| && decls[k].key == grown[i].key && decls[k].file == grown[i].file;
      assert decls[k] in decls && Matches(grown[i], decls[k]);
    }
  }

  /** A live row that no declaration names any more, though its file is still part of the load. */
  ghost predicate Lingers<K, B>(r: Row<K, B>, files: seq<SourceFile<K, B>>) {
    r.live && r.file in PathsOf(files) && !Declared(DeclsOf(files), r.key)
  }

  lemma LingeringRowStaysLive<K, B>(p: Policy<B>, rows: seq<Row<K, B>>, files: seq<SourceFile<K, B>>, next: nat,
                                    clock: nat -> int, i: nat)
    requires KeysUnique(rows) && Loadable(p, rows, files) && !p.staleByKey
    requires i < |rows| && Lingers(rows[i], files)
    ensures var after := LoadedRows(p, rows, files, next, clock);
            i < |after| && after[i] == rows[i] && !Stated(after[i], DeclsOf(files))
  {
    UpsertAllGrows(rows, DeclsOf(files), next, clock);
    DeclaredByMember(DeclsOf(files), rows[i].key);
  }

  lemma LiveRowIsStated<K, B>(p: Policy<B>, rows: seq<Row<K, B>>, files: seq<SourceFile<K, B>>, next: nat,
                              clock: nat -> int, i: nat)
    requires KeysUnique(rows) && Loadable(p, rows, files) && !p.staleByKey
    requires forall k :: 0 <= k < |rows| ==> !Lingers(rows[k], files)
    requires i < |LoadedRows(p, rows, files, next, clock)| && LoadedRows(p, rows, files, next, clock)[i].live
    ensures Stated(LoadedRows(p, rows, files, next, clock)[i], DeclsOf(files))
  {
    var decls := DeclsOf(files);
    var grown := UpsertAll(rows, decls, next, clock);
    UpsertAllGrows(rows, decls, next, clock);
    assert Declared(decls, grown[i].key) by {
      assert i < |rows| ==> !Lingers(rows[i], files);
    }
    DeclaredByMember(decls, grown[i].key);
    var d :| d in decls && d.key == grown[i].key;
    assert Matches(grown[i], d);
  }

  /**
   A table that goes stale by file is exact after a load precisely when no live row, undeclared
   now, still points at a file of this load: an entity renamed inside its file stays live.
  */
  lemma FileLoadIsExactIff<K, B>(p: Policy<B>, rows: seq<Row<K, B>>, files: seq<SourceFile<K, B>>, next: nat,
                                 clock: nat -> int)
    requires KeysUnique(rows) && Loadable(p, rows, files) && !p.staleByKey
    ensures ExactlyDeclared(LoadedRows(p, rows, files, next, clock), DeclsOf(files)) <==>
            forall i :: 0 <= i < |rows| ==> !Lingers(rows[i], files)
  {
    var after := LoadedRows(p, rows, files, next, clock);
    if i :| 0 <= i < |rows| && Lingers(rows[i], files) {
      LingeringRowStaysLive(p, rows, files, next, clock, i);
    } else {
      forall i | 0 <= i < |after| && after[i].live ensures Stated(after[i], DeclsOf(files)) {
        LiveRowIsStated(p, rows, files, next, clock, i);
      }
      LoadBringsEveryDeclarationLive(p, rows, files, next, clock);
    }
  }

  // ---- loading twice -------------------------------------------------------

  /** Every declaration already has its live row. */
  ghost predicate Settled<K, B>(rows: seq<Row<K, B>>, decls: seq<Decl<K, B>>) {
    forall d :: d in decls ==> exists i :: 0 <= i < |rows| && Matches(rows[i], d)
  }

  lemma {:induction false} SettledUpsertsDoNothing<K, B>(rows: seq<Row<K, B>>, decls: seq<Decl<K, B>>, next: nat,
                                                         clock: nat -> int)
    requires KeysUnique(rows) && Settled(rows, decls)
    ensures UpsertAll(rows, decls, next, clock) == rows
    ensures |DeltasOf(rows, decls, next, clock)| == |decls|
    ensures forall i :: 0 <= i < |decls| ==> DeltasOf(rows, decls, next, clock)[i].action == Unaltered
  {
    if decls == [] {
    } else {
      var most, d := decls[..|decls| - 1], decls[|decls| - 1];
      assert forall x :: x in most ==> x in decls;
      SettledUpsertsDoNothing(rows, most, next, clock);
      assert d in decls;
      SettledUpsert(rows, d, next, clock);
    }
  }

  lemma SettledUpsert<K, B>(rows: seq<Row<K, B>>, d: Decl<K, B>, next: nat, clock: nat -> int)
    requires KeysUnique(rows) && exists i :: 0 <= i < |rows| && Matches(rows[i], d)
    ensures Upsert(rows, d, next, clock) == rows && UpsertDelta(rows, d, next).action == Unaltered
  {
    var i :| 0 <= i < |rows| && Matches(rows[i], d);
    FindIsTheRow(rows, i);
    assert Adopt(rows[i], d) == rows[i];
  }

  lemma {:induction false} NothingStaleNothingRemoved<K, B>(p: Policy<B>, rows: seq<Row<K, B>>, decls: seq<Decl<K, B>>,
                                                            paths: set<string>)
    requires forall i :: 0 <= i < |rows| ==> !Stale(p, rows[i], decls, paths)
    ensures RetireAll(p, rows, decls, paths) == rows && Removals(p, rows, decls, paths) == []
  {
    if rows == [] {
    } else {
      NothingStaleNothingRemoved(p, rows[..|rows| - 1], decls, paths);
    }
  }

  /**
   Loading the same files again is accepted, changes no row, and reports nothing but one unaltered
   entry per declaration, whatever the clock says and whatever ids are free.
  */
  lemma LoadingTwiceChangesNothing<K, B>(p: Policy<B>, rows: seq<Row<K, B>>, files: seq<SourceFile<K, B>>,
                                         next: nat, clock: nat -> int, laterNext: nat, laterClock: nat -> int)
    requires KeysUnique(rows) && Loadable(p, rows, files)
    ensures var once := LoadedRows(p, rows, files, next, clock);
            && Loadable(p, once, files)
            && LoadedRows(p, once, files, laterNext, laterClock) == once
            && |LoadedDeltas(p, once, files, laterNext, laterClock)| == |DeclsOf(files)|
            && forall i :: 0 <= i < |DeclsOf(files)| ==>
                 LoadedDeltas(p, once, files, laterNext, laterClock)[i].action == Unaltered
  {
    var decls, paths := DeclsOf(files), PathsOf(files);
    var once := LoadedRows(p, rows, files, next, clock);
    LoadBringsEveryDeclarationLive(p, rows, files, next, clock);
    forall i | 0 <= i < |decls| ensures !Conflicting(p, once, decls[i]) {
      assert decls[i] in decls;
      var k :| 0 <= k < |once| && Matches(once[k], decls[i]);
      FindIsTheRow(once, k);
    }
    SettledUpsertsDoNothing(once, decls, laterNext, laterClock);
    NothingStaleNothingRemoved(p, once, decls, paths);
  }
}
