/** The catalog tables against the files themselves: what a load accepts and what it leaves, entry by entry. */
module CatalogMirror {
  import opened Prelude
  import opened CatalogLoader

  // ---- what the files say --------------------------------------------------

  /** Some file of the load lists an entry under this key. */
  ghost predicate Lists<K, B>(files: seq<SourceFile<K, B>>, key: K) {
    exists f, e :: f in files && f.doc.Ok? && e in f.doc.value && e.key == key
  }

  /** The file the row points at lists exactly what the row says. */
  ghost predicate ListsRow<K, B>(files: seq<SourceFile<K, B>>, r: Row<K, B>) {
    exists f :: f in files && f.doc.Ok? && f.path == r.file && Entry(r.key, r.body) in f.doc.value
  }

  ghost predicate HasFile<K, B>(files: seq<SourceFile<K, B>>, path: string) {
    exists f :: f in files && f.path == path
  }

  /** The live row for an entry of a file. */
  ghost predicate LiveRow<K, B>(rows: seq<Row<K, B>>, e: Entry<K, B>, path: string) {
    exists r :: r in rows && r.live && r.key == e.key && r.body == e.body && r.file == path
  }

  /** The live rows are exactly the entries of the files. */
  ghost predicate Mirrors<K, B>(rows: seq<Row<K, B>>, files: seq<SourceFile<K, B>>) {
    && (forall r :: r in rows && r.live ==> ListsRow(files, r))
    && (forall f, e :: f in files && f.doc.Ok? && e in f.doc.value ==> LiveRow(rows, e, f.path))
  }

  /** A live row whose file is part of the load, though no file lists its key any more. */
  ghost predicate LeftOver<K, B>(r: Row<K, B>, files: seq<SourceFile<K, B>>) {
    r.live && HasFile(files, r.file) && !Lists(files, r.key)
  }

  ghost predicate NothingLeftOver<K, B>(rows: seq<Row<K, B>>, files: seq<SourceFile<K, B>>) {
    forall r :: r in rows ==> !LeftOver(r, files)
  }

  // ---- what a load accepts -------------------------------------------------

  ghost predicate NoKeyTwiceIn<K, B>(f: SourceFile<K, B>) {
    f.doc.Ok? ==> forall k, l :: 0 <= k < l < |f.doc.value| ==> f.doc.value[k].key != f.doc.value[l].key
  }

  ghost predicate NoSharedKey<K, B>(f: SourceFile<K, B>, g: SourceFile<K, B>) {
    f.doc.Ok? && g.doc.Ok? ==> forall x, y :: x in f.doc.value && y in g.doc.value ==> x.key != y.key
  }

  /** Every file is valid, and no key is listed twice, in one file or in two. */
  ghost predicate Sound<K, B>(files: seq<SourceFile<K, B>>) {
    && (forall i :: 0 <= i < |files| ==> files[i].doc.Ok? && NoKeyTwiceIn(files[i]))
    && (forall i, j :: 0 <= i < j < |files| ==> NoSharedKey(files[i], files[j]))
  }

  /** No live row is listed with another fingerprint. */
  ghost predicate FingerprintsAgree<K, B>(rows: seq<Row<K, B>>, files: seq<SourceFile<K, B>>, fingerprint: B -> string)
  {
    forall r, f, e :: r in rows && r.live && f in files && f.doc.Ok? && e in f.doc.value && e.key == r.key ==>
      fingerprint(e.body) == fingerprint(r.body)
  }

  // ---- what a load leaves --------------------------------------------------

  /** A stored row after the load: what its file says now, or what it was, still live or not. */
  ghost predicate RowRefreshed<K, B>(r: Row<K, B>, after: Row<K, B>, files: seq<SourceFile<K, B>>, byKey: bool) {
    && after.key == r.key && after.id == r.id && after.loadedAt == r.loadedAt
    && if Lists(files, r.key) then after.live && ListsRow(files, after)
       else after == r.(live := r.live && !byKey && HasFile(files, r.file))
  }

  /** A row that the load inserted. */
  ghost predicate RowInserted<K, B>(r: Row<K, B>, id: int, files: seq<SourceFile<K, B>>, clock: nat -> int) {
    r.id == id && r.loadedAt == clock(r.id) && r.live && ListsRow(files, r)
  }

  /**
   The whole table after a load: stored rows at their place, new ones behind them with the next ids,
   one row per key, and a live row for every entry.
  */
  ghost predicate Refreshed<K, B>(before: seq<Row<K, B>>, after: seq<Row<K, B>>, files: seq<SourceFile<K, B>>,
                                  byKey: bool, next: nat, clock: nat -> int)
  {
    && |before| <= |after| && KeysUnique(after)
    && (forall i :: 0 <= i < |before| ==> RowRefreshed(before[i], after[i], files, byKey))
    && (forall i :: |before| <= i < |after| ==> RowInserted(after[i], next + i - |before|, files, clock))
    && (forall f, e :: f in files && f.doc.Ok? && e in f.doc.value ==> LiveRow(after, e, f.path))
  }

  // ---- declarations and entries --------------------------------------------

  /** The declarations of a load are the entries of its files, and nothing else. */
  lemma {:induction false} DeclaredIffListed<K, B>(files: seq<SourceFile<K, B>>, d: Decl<K, B>)
    ensures d in DeclsOf(files) <==>
            exists f :: f in files && f.doc.Ok? && f.path == d.file && Entry(d.key, d.body) in f.doc.value
  {
    if files == [] {
    } else {
      var most, last := files[..|files| - 1], files[|files| - 1];
      DeclaredIffListed(most, d);
      assert files == most + [last];
      if last.doc.Ok? {
        FileDeclaresIff(last, d);
      }
    }
  }

  lemma FileDeclaresIff<K, B>(f: SourceFile<K, B>, d: Decl<K, B>)
    requires f.doc.Ok?
    ensures d in FileDecls(f.path, f.doc.value) <==> f.path == d.file && Entry(d.key, d.body) in f.doc.value
  {
    var entries := f.doc.value;
    var decls := FileDecls(f.path, entries);
    if d in decls {
      var i :| 0 <= i < |decls| && decls[i] == d;
      assert entries[i] == Entry(d.key, d.body);
    }
    if f.path == d.file && Entry(d.key, d.body) in entries {
      var i :| 0 <= i < |entries| && entries[i] == Entry(d.key, d.body);
      assert decls[i] == d;
    }
  }

  lemma KeyDeclaredIffListed<K, B>(files: seq<SourceFile<K, B>>, key: K)
    ensures Declared(DeclsOf(files), key) <==> Lists(files, key)
  {
    DeclaredByMember(DeclsOf(files), key);
    if Declared(DeclsOf(files), key) {
      var d :| d in DeclsOf(files) && d.key == key;
      DeclaredIffListed(files, d);
    }
    if Lists(files, key) {
      var f, e :| f in files && f.doc.Ok? && e in f.doc.value && e.key == key;
      assert Entry(key, e.body) == e;
      DeclaredIffListed(files, Decl(key, e.body, f.path));
    }
  }

  lemma PathSeenIff<K, B>(files: seq<SourceFile<K, B>>, path: string)
    ensures path in PathsOf(files) <==> HasFile(files, path)
  {
    if HasFile(files, path) {
      var f :| f in files && f.path == path;
      var i :| 0 <= i < |files| && files[i] == f;
    }
  }

  lemma DistinctKeysConcat<K, B>(a: seq<Decl<K, B>>, b: seq<Decl<K, B>>)
    ensures DistinctKeys(a + b) <==>
            DistinctKeys(a) && DistinctKeys(b) && forall d, e :: d in a && e in b ==> d.key != e.key
  {
    var all := a + b;
    assert forall i :: 0 <= i < |a| ==> all[i] == a[i];
    assert forall j :: 0 <= j < |b| ==> all[|a| + j] == b[j];
    if DistinctKeys(all) {
      forall i, j | 0 <= i < j < |b| ensures b[i].key != b[j].key {
        assert all[|a| + i].key != all[|a| + j].key;
      }
      forall d, e | d in a && e in b ensures d.key != e.key {
        var i, j :| 0 <= i < |a| && a[i] == d && 0 <= j < |b| && b[j] == e;
        assert all[i].key != all[|a| + j].key;
      }
    }
    if DistinctKeys(a) && DistinctKeys(b) && forall d, e :: d in a && e in b ==> d.key != e.key {
      forall i, j | 0 <= i < j < |all| ensures all[i].key != all[j].key {
        if i < |a| <= j {
          assert a[i] in a && b[j - |a|] in b;
        } else if |a| <= i {
          assert b[i - |a|].key != b[j - |a|].key;
        }
      }
    }
  }

  lemma FileDistinctIff<K, B>(f: SourceFile<K, B>)
    requires f.doc.Ok?
    ensures DistinctKeys(FileDecls(f.path, f.doc.value)) <==> NoKeyTwiceIn(f)
  {
  }

  /** The last file declares nothing that an earlier one declares exactly if it shares no key with them. */
  lemma LastFileSharesIff<K, B>(most: seq<SourceFile<K, B>>, last: SourceFile<K, B>)
    requires last.doc.Ok?
    ensures (forall d, e :: d in DeclsOf(most) && e in FileDecls(last.path, last.doc.value) ==> d.key != e.key) <==>
            forall i :: 0 <= i < |most| ==> NoSharedKey(most[i], last)
  {
    var decls := FileDecls(last.path, last.doc.value);
    if forall d, e :: d in DeclsOf(most) && e in decls ==> d.key != e.key {
      forall i, x, y | 0 <= i < |most| && most[i].doc.Ok? && x in most[i].doc.value && y in last.doc.value
        ensures x.key != y.key
      {
        assert Entry(x.key, x.body) == x && Entry(y.key, y.body) == y;
        DeclaredIffListed(most, Decl(x.key, x.body, most[i].path));
        FileDeclaresIff(last, Decl(y.key, y.body, last.path));
      }
    }
    if forall i :: 0 <= i < |most| ==> NoSharedKey(most[i], last) {
      forall d, e | d in DeclsOf(most) && e in decls ensures d.key != e.key {
        DeclaredIffListed(most, d);
        FileDeclaresIff(last, e);
        var f :| f in most && f.doc.Ok? && f.path == d.file && Entry(d.key, d.body) in f.doc.value;
        var i :| 0 <= i < |most| && most[i] == f;
      }
    }
  }

  lemma {:induction false} SoundIff<K, B>(files: seq<SourceFile<K, B>>)
    ensures Sound(files) <==> (forall i :: 0 <= i < |files| ==> files[i].doc.Ok?) && DistinctKeys(DeclsOf(files))
  {
    if files == [] {
    } else {
      var most, last := files[..|files| - 1], files[|files| - 1];
      assert files == most + [last];
      SoundIff(most);
      SoundSnoc(most, last);
      if last.doc.Ok? {
        DistinctKeysConcat(DeclsOf(most), FileDecls(last.path, last.doc.value));
        FileDistinctIff(last);
        LastFileSharesIff(most, last);
      }
    }
  }

  lemma SoundSnoc<K, B>(most: seq<SourceFile<K, B>>, last: SourceFile<K, B>)
    ensures Sound(most + [last]) <==>
            && Sound(most) && last.doc.Ok? && NoKeyTwiceIn(last)
            && forall i :: 0 <= i < |most| ==> NoSharedKey(most[i], last)
  {
    var files := most + [last];
    assert files[|most|] == last && forall i :: 0 <= i < |most| ==> files[i] == most[i];
  }

  // ---- acceptance ----------------------------------------------------------

  lemma ConflictIff<K, B>(p: Policy<B>, rows: seq<Row<K, B>>, d: Decl<K, B>)
    requires KeysUnique(rows)
    ensures Conflicting(p, rows, d) <==>
            exists r :: r in rows && r.live && r.key == d.key && p.fingerprint(r.body) != p.fingerprint(d.body)
  {
    if r :| r in rows && r.live && r.key == d.key && p.fingerprint(r.body) != p.fingerprint(d.body) {
      var i :| 0 <= i < |rows| && rows[i] == r;
      FindIsTheRow(rows, i);
    }
  }

  /**
   A load goes through exactly when every file is valid, no key is listed twice, and no live row is
   listed with another fingerprint.
  */
  lemma LoadableIff<K, B>(p: Policy<B>, rows: seq<Row<K, B>>, files: seq<SourceFile<K, B>>)
    requires KeysUnique(rows)
    ensures Loadable(p, rows, files) <==> Sound(files) && FingerprintsAgree(rows, files, p.fingerprint)
  {
    var decls := DeclsOf(files);
    SoundIff(files);
    if FingerprintsAgree(rows, files, p.fingerprint) {
      forall i | 0 <= i < |decls| ensures !Conflicting(p, rows, decls[i]) {
        ConflictIff(p, rows, decls[i]);
        DeclaredIffListed(files, decls[i]);
      }
    }
    if Loadable(p, rows, files) {
      forall r, f, e | r in rows && r.live && f in files && f.doc.Ok? && e in f.doc.value && e.key == r.key
        ensures p.fingerprint(e.body) == p.fingerprint(r.body)
      {
        var d := Decl(e.key, e.body, f.path);
        assert Entry(e.key, e.body) == e;
        DeclaredIffListed(files, d);
        ConflictIff(p, rows, d);
      }
    }
  }

  // ---- the rows ------------------------------------------------------------

  lemma MatchingRowIsListed<K, B>(files: seq<SourceFile<K, B>>, r: Row<K, B>, d: Decl<K, B>)
    requires d in DeclsOf(files) && Matches(r, d)
    ensures r.live && ListsRow(files, r)
  {
    DeclaredIffListed(files, d);
  }

  /** A row of the grown table whose key is declared is live and says what its file says, and stays so. */
  lemma DeclaredRowIsListed<K, B>(p: Policy<B>, files: seq<SourceFile<K, B>>, grown: seq<Row<K, B>>, i: nat)
    requires Covered(DeclsOf(files), grown) && i < |grown| && Declared(DeclsOf(files), grown[i].key)
    ensures Retire(p, grown[i], DeclsOf(files), PathsOf(files)) == grown[i]
    ensures grown[i].live && ListsRow(files, grown[i])
  {
    DeclaredByMember(DeclsOf(files), grown[i].key);
    var d :| d in DeclsOf(files) && d.key == grown[i].key;
    MatchingRowIsListed(files, grown[i], d);
    DeclaredIsNotStale(p, grown[i], d, files);
  }

  lemma UndeclaredRowRetires<K, B>(p: Policy<B>, files: seq<SourceFile<K, B>>, r: Row<K, B>)
    requires !Declared(DeclsOf(files), r.key)
    ensures Retire(p, r, DeclsOf(files), PathsOf(files)) ==
            r.(live := r.live && !p.staleByKey && HasFile(files, r.file))
  {
    PathSeenIff(files, r.file);
    assert !DeclaredIn(DeclsOf(files), r.key, r.file);
  }

  lemma {:induction false} NewRowsAreStamped<K, B>(rows: seq<Row<K, B>>, decls: seq<Decl<K, B>>, next: nat,
                                                   clock: nat -> int)
    ensures forall i :: |rows| <= i < |UpsertAll(rows, decls, next, clock)| ==>
              UpsertAll(rows, decls, next, clock)[i].loadedAt == clock(UpsertAll(rows, decls, next, clock)[i].id)
  {
    if decls == [] {
    } else {
      NewRowsAreStamped(rows, decls[..|decls| - 1], next, clock);
    }
  }

  lemma EntriesAreLive<K, B>(p: Policy<B>, rows: seq<Row<K, B>>, files: seq<SourceFile<K, B>>, next: nat,
                             clock: nat -> int)
    requires KeysUnique(rows) && Loadable(p, rows, files)
    ensures forall f, e :: f in files && f.doc.Ok? && e in f.doc.value ==>
              LiveRow(LoadedRows(p, rows, files, next, clock), e, f.path)
  {
    LoadBringsEveryDeclarationLive(p, rows, files, next, clock);
    var after := LoadedRows(p, rows, files, next, clock);
    forall f, e | f in files && f.doc.Ok? && e in f.doc.value ensures LiveRow(after, e, f.path) {
      var d := Decl(e.key, e.body, f.path);
      assert Entry(e.key, e.body) == e;
      DeclaredIffListed(files, d);
      var i :| 0 <= i < |after| && Matches(after[i], d);
      assert after[i] in after;
    }
  }

  /** What an accepted load makes of a table, row by row, in terms of the files. */
  lemma LoadRefreshes<K, B>(p: Policy<B>, rows: seq<Row<K, B>>, files: seq<SourceFile<K, B>>, next: nat,
                            clock: nat -> int)
    requires KeysUnique(rows) && Loadable(p, rows, files)
    ensures Refreshed(rows, LoadedRows(p, rows, files, next, clock), files, p.staleByKey, next, clock)
  {
    var decls := DeclsOf(files);
    var grown, after := UpsertAll(rows, decls, next, clock), LoadedRows(p, rows, files, next, clock);
    UpsertAllGrows(rows, decls, next, clock);
    NewRowsAreStamped(rows, decls, next, clock);
    LoadBringsEveryDeclarationLive(p, rows, files, next, clock);
    EntriesAreLive(p, rows, files, next, clock);
    forall i | 0 <= i < |rows| ensures RowRefreshed(rows[i], after[i], files, p.staleByKey) {
      KeyDeclaredIffListed(files, rows[i].key);
      if Declared(decls, rows[i].key) {
        DeclaredRowIsListed(p, files, grown, i);
      } else {
        UndeclaredRowRetires(p, files, rows[i]);
      }
    }
    forall i | |rows| <= i < |after| ensures RowInserted(after[i], next + i - |rows|, files, clock) {
      DeclaredRowIsListed(p, files, grown, i);
    }
  }

  /** A table that goes stale key by key mirrors its files after a load; another one does unless a row is left over. */
  lemma MirrorsIff<K, B>(before: seq<Row<K, B>>, after: seq<Row<K, B>>, files: seq<SourceFile<K, B>>, byKey: bool,
                         next: nat, clock: nat -> int)
    requires Refreshed(before, after, files, byKey, next, clock)
    ensures Mirrors(after, files) <==> byKey || NothingLeftOver(before, files)
  {
    if byKey || NothingLeftOver(before, files) {
      forall r | r in after && r.live ensures ListsRow(files, r) {
        var i :| 0 <= i < |after| && after[i] == r;
        if i < |before| {
          assert RowRefreshed(before[i], after[i], files, byKey);
          assert before[i] in before;
        }
      }
    } else {
      var r :| r in before && LeftOver(r, files);
      var i :| 0 <= i < |before| && before[i] == r;
      assert RowRefreshed(before[i], after[i], files, byKey) && after[i] in after;
      assert !ListsRow(files, after[i]);
    }
  }

  // ---- what a load reports -------------------------------------------------

  /** What happened to the row at this place: it appeared, changed or came back, or it was retired. */
  ghost predicate Happened<K, B>(before: seq<Row<K, B>>, after: seq<Row<K, B>>, i: nat, action: DeltaAction)
    requires i < |after|
  {
    match action
    case Loaded => after[i].live && (i < |before| ==> after[i] != before[i])
    case Removed => i < |before| && before[i].live && !after[i].live
    case Unaltered => false
  }

  ghost predicate Tells<K, B>(before: seq<Row<K, B>>, after: seq<Row<K, B>>, e: Delta<K>) {
    exists i :: 0 <= i < |after| && after[i].id == e.id && after[i].key == e.key && Happened(before, after, i, e.action)
  }

  /** The changes among the deltas are exactly what happened to the rows, each told once. */
  ghost predicate ReportsExactly<K(!new), B>(before: seq<Row<K, B>>, after: seq<Row<K, B>>, deltas: seq<Delta<K>>) {
    && (forall e :: e in deltas && e.action != Unaltered <==> Tells(before, after, e))
    && Distinct(deltas)
  }

  ghost predicate HasRow<K, B>(rows: seq<Row<K, B>>, key: K, id: nat) {
    exists i :: 0 <= i < |rows| && rows[i].key == key && rows[i].id == id
  }

  ghost predicate AlreadySaid<K, B>(rows: seq<Row<K, B>>, d: Decl<K, B>) {
    exists i :: 0 <= i < |rows| && Matches(rows[i], d)
  }

  /** The delta of one declaration: whether its stored row already said so, and the row it ends up in. */
  ghost predicate DeltaFor<K, B>(rows: seq<Row<K, B>>, grown: seq<Row<K, B>>, d: Decl<K, B>, e: Delta<K>) {
    && e.key == d.key
    && e.action == (if AlreadySaid(rows, d) then Unaltered else Loaded)
    && HasRow(grown, d.key, e.id)
  }

  ghost predicate DeltasFor<K, B>(rows: seq<Row<K, B>>, grown: seq<Row<K, B>>, decls: seq<Decl<K, B>>,
                                  deltas: seq<Delta<K>>)
  {
    |deltas| == |decls| && forall k :: 0 <= k < |decls| ==> DeltaFor(rows, grown, decls[k], deltas[k])
  }

  lemma {:induction false} DeltasCounted<K, B>(rows: seq<Row<K, B>>, decls: seq<Decl<K, B>>, next: nat,
                                               clock: nat -> int)
    ensures |DeltasOf(rows, decls, next, clock)| == |decls|
  {
    if decls == [] {
    } else {
      DeltasCounted(rows, decls[..|decls| - 1], next, clock);
    }
  }

  lemma {:induction false} DeltaSays<K, B>(rows: seq<Row<K, B>>, decls: seq<Decl<K, B>>, next: nat, clock: nat -> int,
                                           k: nat)
    requires KeysUnique(rows) && DistinctKeys(decls)
    requires k < |decls| == |DeltasOf(rows, decls, next, clock)|
    ensures var e := DeltasOf(rows, decls, next, clock)[k];
            e.key == decls[k].key && e.action == if AlreadySaid(rows, decls[k]) then Unaltered else Loaded
  {
    var most, d := decls[..|decls| - 1], decls[|decls| - 1];
    var before := UpsertAll(rows, most, next, clock);
    DeltasCounted(rows, most, next, clock);
    assert decls == most + [d];
    LastIsUndeclared(most, d);
    if k < |most| {
      DeltaSays(rows, most, next, clock, k);
    } else {
      UpsertAllGrows(rows, most, next, clock);
      LastAction(rows, most, d, before, next, next + |before| - |rows|);
    }
  }

  lemma {:induction false} DeltaHasRow<K, B>(rows: seq<Row<K, B>>, decls: seq<Decl<K, B>>, next: nat,
                                             clock: nat -> int, k: nat)
    requires k < |decls| == |DeltasOf(rows, decls, next, clock)|
    ensures HasRow(UpsertAll(rows, decls, next, clock), decls[k].key, DeltasOf(rows, decls, next, clock)[k].id)
  {
    var most, d := decls[..|decls| - 1], decls[|decls| - 1];
    var before := UpsertAll(rows, most, next, clock);
    var id := next + |before| - |rows|;
    DeltasCounted(rows, most, next, clock);
    if k < |most| {
      DeltaHasRow(rows, most, next, clock, k);
      UpsertKeepsRows(before, d, id, clock, decls[k].key, DeltasOf(rows, most, next, clock)[k].id);
    } else {
      UpsertHasRow(before, d, id, clock);
    }
  }

  lemma UpsertKeepsRows<K, B>(before: seq<Row<K, B>>, d: Decl<K, B>, next: nat, clock: nat -> int, key: K, id: nat)
    requires HasRow(before, key, id)
    ensures HasRow(Upsert(before, d, next, clock), key, id)
  {
    var i :| 0 <= i < |before| && before[i].key == key && before[i].id == id;
    var after := Upsert(before, d, next, clock);
    assert after[i].key == key && after[i].id == id;
  }

  lemma UpsertHasRow<K, B>(before: seq<Row<K, B>>, d: Decl<K, B>, id: nat, clock: nat -> int)
    ensures HasRow(Upsert(before, d, id, clock), d.key, UpsertDelta(before, d, id).id)
  {
    var i := Find(before, d.key);
    assert Upsert(before, d, id, clock)[i].id == UpsertDelta(before, d, id).id;
  }

  lemma DeltasExactly<K, B>(rows: seq<Row<K, B>>, decls: seq<Decl<K, B>>, next: nat, clock: nat -> int)
    requires KeysUnique(rows) && DistinctKeys(decls)
    ensures DeltasFor(rows, UpsertAll(rows, decls, next, clock), decls, DeltasOf(rows, decls, next, clock))
  {
    DeltasCounted(rows, decls, next, clock);
    forall k | 0 <= k < |decls|
      ensures DeltaFor(rows, UpsertAll(rows, decls, next, clock), decls[k], DeltasOf(rows, decls, next, clock)[k])
    {
      DeltaSays(rows, decls, next, clock, k);
      DeltaHasRow(rows, decls, next, clock, k);
    }
  }

  /** An upsert finds the row as it was before the load, since nothing else of the load has its key. */
  lemma LastAction<K, B>(rows: seq<Row<K, B>>, most: seq<Decl<K, B>>, d: Decl<K, B>, before: seq<Row<K, B>>, next: nat,
                         id: nat)
    requires KeysUnique(rows) && Grown(rows, most, before, next) && !Declared(most, d.key)
    ensures UpsertDelta(before, d, id).action == (if AlreadySaid(rows, d) then Unaltered else Loaded)
  {
    var j := Find(before, d.key);
    if j < |before| {
      assert j < |rows| && before[j] == rows[j];
      forall i | 0 <= i < |rows| && rows[i].key == d.key ensures i == j {
      }
    } else {
      forall i | 0 <= i < |rows| ensures rows[i].key != d.key {
        assert before[i].key == rows[i].key;
      }
    }
  }

  lemma {:induction false} RemovalsExactly<K, B>(p: Policy<B>, rows: seq<Row<K, B>>, decls: seq<Decl<K, B>>,
                                                 paths: set<string>, e: Delta<K>)
    ensures e in Removals(p, rows, decls, paths) <==>
            exists i ::
              0 <= i < |rows| && Stale(p, rows[i], decls, paths) && e == Delta(rows[i].id, rows[i].key, Removed)
  {
    if rows == [] {
    } else {
      var most, last := rows[..|rows| - 1], rows[|rows| - 1];
      RemovalsExactly(p, most, decls, paths, e);
      if e in Removals(p, most, decls, paths) {
        var i :| 0 <= i < |most| && Stale(p, most[i], decls, paths) && e == Delta(most[i].id, most[i].key, Removed);
        assert rows[i] == most[i];
      }
      if i :| 0 <= i < |rows| && Stale(p, rows[i], decls, paths) && e == Delta(rows[i].id, rows[i].key, Removed) {
        assert i < |most| ==> rows[i] == most[i];
      }
    }
  }

  lemma {:induction false} RemovalsDiffer<K, B>(p: Policy<B>, rows: seq<Row<K, B>>, decls: seq<Decl<K, B>>,
                                                paths: set<string>)
    requires KeysUnique(rows)
    ensures Distinct(Removals(p, rows, decls, paths))
  {
    if rows == [] {
    } else {
      var most, last := rows[..|rows| - 1], rows[|rows| - 1];
      RemovalsDiffer(p, most, decls, paths);
      RemovalsExactly(p, most, decls, paths, Delta(last.id, last.key, Removed));
    }
  }

  /** The state of a load between its two loops: the rows before, the grown table and the retired one. */
  ghost predicate Loading<K, B>(p: Policy<B>, rows: seq<Row<K, B>>, grown: seq<Row<K, B>>, after: seq<Row<K, B>>,
                                files: seq<SourceFile<K, B>>, next: nat)
  {
    && KeysUnique(rows) && DistinctKeys(DeclsOf(files)) && Grown(rows, DeclsOf(files), grown, next)
    && after == RetireAll(p, grown, DeclsOf(files), PathsOf(files))
  }

  /** A row is retired exactly if it was there before, live and undeclared. */
  lemma StaleRowWasThere<K, B>(p: Policy<B>, rows: seq<Row<K, B>>, grown: seq<Row<K, B>>, after: seq<Row<K, B>>,
                               files: seq<SourceFile<K, B>>, next: nat, i: nat)
    requires Loading(p, rows, grown, after, files, next) && i < |grown|
    ensures Stale(p, grown[i], DeclsOf(files), PathsOf(files)) <==> Happened(rows, after, i, Removed)
  {
    var decls := DeclsOf(files);
    if Declared(decls, grown[i].key) {
      DeclaredRowIsListed(p, files, grown, i);
    } else {
      assert i < |rows| && grown[i] == rows[i];
    }
  }

  lemma DeltaIsTold<K, B>(p: Policy<B>, rows: seq<Row<K, B>>, grown: seq<Row<K, B>>, after: seq<Row<K, B>>,
                          files: seq<SourceFile<K, B>>, next: nat, d: Decl<K, B>, e: Delta<K>)
    requires Loading(p, rows, grown, after, files, next) && d in DeclsOf(files) && DeltaFor(rows, grown, d, e)
    requires e.action != Unaltered
    ensures Tells(rows, after, e)
  {
    var i :| 0 <= i < |grown| && grown[i].key == d.key && grown[i].id == e.id;
    DeclaredByMember(DeclsOf(files), d.key);
    DeclaredRowIsListed(p, files, grown, i);
    assert Matches(grown[i], d);
    if i < |rows| {
      FindIsTheRow(rows, i);
    }
    assert Happened(rows, after, i, Loaded);
  }

  lemma ChangeHasDelta<K, B>(p: Policy<B>, rows: seq<Row<K, B>>, grown: seq<Row<K, B>>, after: seq<Row<K, B>>,
                             files: seq<SourceFile<K, B>>, next: nat, i: nat, deltas: seq<Delta<K>>)
    requires Loading(p, rows, grown, after, files, next) && i < |after| && Happened(rows, after, i, Loaded)
    requires DeltasFor(rows, grown, DeclsOf(files), deltas)
    ensures Delta(after[i].id, after[i].key, Loaded) in deltas
  {
    ChangedRowIsDeclared(p, rows, grown, after, files, next, i);
    var decls := DeclsOf(files);
    var k :| 0 <= k < |decls| && decls[k].key == grown[i].key;
    ChangeIsLoaded(p, rows, grown, after, files, next, i, decls[k], deltas[k]);
    assert deltas[k] in deltas;
  }

  lemma ChangedRowIsDeclared<K, B>(p: Policy<B>, rows: seq<Row<K, B>>, grown: seq<Row<K, B>>, after: seq<Row<K, B>>,
                                   files: seq<SourceFile<K, B>>, next: nat, i: nat)
    requires Loading(p, rows, grown, after, files, next) && i < |after| && Happened(rows, after, i, Loaded)
    ensures Declared(DeclsOf(files), grown[i].key)
  {
  }

  lemma ChangeIsLoaded<K, B>(p: Policy<B>, rows: seq<Row<K, B>>, grown: seq<Row<K, B>>, after: seq<Row<K, B>>,
                             files: seq<SourceFile<K, B>>, next: nat, i: nat, d: Decl<K, B>, e: Delta<K>)
    requires Loading(p, rows, grown, after, files, next) && i < |after| && Happened(rows, after, i, Loaded)
    requires d in DeclsOf(files) && d.key == grown[i].key && DeltaFor(rows, grown, d, e)
    ensures e == Delta(after[i].id, after[i].key, Loaded)
  {
    assert Matches(grown[i], d) && after[i] == grown[i] by {
      DeclaredByMember(DeclsOf(files), d.key);
      DeclaredRowIsListed(p, files, grown, i);
    }
    if i < |rows| {
      FindIsTheRow(rows, i);
    }
    var j :| 0 <= j < |grown| && grown[j].key == d.key && grown[j].id == e.id;
    assert j == i;
  }

  /** What a load reports is exactly what it did. */
  lemma LoadReportsExactly<K(!new), B>(p: Policy<B>, rows: seq<Row<K, B>>, files: seq<SourceFile<K, B>>, next: nat,
                                       clock: nat -> int)
    requires KeysUnique(rows) && Loadable(p, rows, files)
    ensures ReportsExactly(rows, LoadedRows(p, rows, files, next, clock), LoadedDeltas(p, rows, files, next, clock))
  {
    var decls, paths := DeclsOf(files), PathsOf(files);
    var grown, after := UpsertAll(rows, decls, next, clock), LoadedRows(p, rows, files, next, clock);
    var upserts, removals := DeltasOf(rows, decls, next, clock), Removals(p, grown, decls, paths);
    assert Loading(p, rows, grown, after, files, next) && DeltasFor(rows, grown, decls, upserts) by {
      UpsertAllGrows(rows, decls, next, clock);
      DeltasExactly(rows, decls, next, clock);
    }
    assert LoadedDeltas(p, rows, files, next, clock) == upserts + removals;
    forall e: Delta<K> ensures e in upserts + removals && e.action != Unaltered <==> Tells(rows, after, e) {
      DeltaIffTold(p, rows, grown, after, files, next, upserts, removals, e);
    }
    DeltasDiffer(p, rows, grown, after, files, next, upserts, removals);
  }

  lemma DeltasDiffer<K, B>(p: Policy<B>, rows: seq<Row<K, B>>, grown: seq<Row<K, B>>, after: seq<Row<K, B>>,
                           files: seq<SourceFile<K, B>>, next: nat, upserts: seq<Delta<K>>, removals: seq<Delta<K>>)
    requires Loading(p, rows, grown, after, files, next) && DeltasFor(rows, grown, DeclsOf(files), upserts)
    requires removals == Removals(p, grown, DeclsOf(files), PathsOf(files))
    ensures Distinct(upserts + removals)
  {
    var decls := DeclsOf(files);
    RemovalsDiffer(p, grown, decls, PathsOf(files));
    forall k | 0 <= k < |upserts| ensures upserts[k].key == decls[k].key && upserts[k].action != Removed {
      assert DeltaFor(rows, grown, decls[k], upserts[k]);
    }
    forall k | 0 <= k < |removals| ensures removals[k].action == Removed {
      RemovalsExactly(p, grown, decls, PathsOf(files), removals[k]);
    }
    assert forall x :: x in upserts ==> x !in removals;
    DistinctConcat(upserts, removals);
  }

  lemma DeltaIffTold<K, B>(p: Policy<B>, rows: seq<Row<K, B>>, grown: seq<Row<K, B>>, after: seq<Row<K, B>>,
                           files: seq<SourceFile<K, B>>, next: nat, upserts: seq<Delta<K>>, removals: seq<Delta<K>>,
                           e: Delta<K>)
    requires Loading(p, rows, grown, after, files, next) && DeltasFor(rows, grown, DeclsOf(files), upserts)
    requires removals == Removals(p, grown, DeclsOf(files), PathsOf(files))
    ensures e in upserts + removals && e.action != Unaltered <==> Tells(rows, after, e)
  {
    var decls, paths := DeclsOf(files), PathsOf(files);
    RemovalsExactly(p, grown, decls, paths, e);
    if e in upserts && e.action != Unaltered {
      var k :| 0 <= k < |upserts| && upserts[k] == e;
      DeltaIsTold(p, rows, grown, after, files, next, decls[k], e);
    }
    if e in removals {
      var i :| 0 <= i < |grown| && Stale(p, grown[i], decls, paths) && e == Delta(grown[i].id, grown[i].key, Removed);
      StaleRowWasThere(p, rows, grown, after, files, next, i);
      assert Happened(rows, after, i, e.action);
    }
    if Tells(rows, after, e) {
      var i :| 0 <= i < |after| && after[i].id == e.id && after[i].key == e.key && Happened(rows, after, i, e.action);
      if e.action == Removed {
        StaleRowWasThere(p, rows, grown, after, files, next, i);
        assert e == Delta(grown[i].id, grown[i].key, Removed);
      } else {
        ChangeHasDelta(p, rows, grown, after, files, next, i, upserts);
        assert e == Delta(after[i].id, after[i].key, Loaded);
      }
    }
  }
}
