/** What an import leaves behind: unique identities, the last word of every row, and what a duplicate may do. */
module DeviceImportTheorems {
  import opened Prelude
  import opened Devices
  import opened DeviceImport

  // ---- identities ----------------------------------------------------------

  lemma TakingKeepsIdentities(devices: seq<Device>, o: Outcome, source: string, now: int)
    requires UniqueIdentities(devices)
    ensures var after := Taken(devices, o, source, now);
            && UniqueIdentities(after) && |devices| <= |after|
            && forall i :: 0 <= i < |devices| ==> IdentityIn(after[i]) == IdentityIn(devices[i])
  {
  }

  /** An import never gives two devices one identity, and never changes the identity of a device. */
  lemma {:induction false} IdentitiesStayUnique(devices: seq<Device>, outcomes: seq<Outcome>, source: string, now: int)
    requires UniqueIdentities(devices)
    ensures var after := UpsertedAll(devices, outcomes, source, now);
            && UniqueIdentities(after) && |devices| <= |after|
            && forall i :: 0 <= i < |devices| ==> IdentityIn(after[i]) == IdentityIn(devices[i])
  {
    if outcomes == [] {
    } else {
      var most := outcomes[..|outcomes| - 1];
      IdentitiesStayUnique(devices, most, source, now);
      TakingKeepsIdentities(UpsertedAll(devices, most, source, now), outcomes[|outcomes| - 1], source, now);
    }
  }

  ghost predicate Known(devices: seq<Device>, ident: Identity) {
    exists i :: 0 <= i < |devices| && IdentityIn(devices[i]) == ident
  }

  ghost predicate Mentioned(outcomes: seq<Outcome>, ident: Identity) {
    exists i :: 0 <= i < |outcomes| && outcomes[i].Valid? && RowIdentity(outcomes[i].row) == ident
  }

  lemma TakingMakesKnown(devices: seq<Device>, o: Outcome, source: string, now: int, ident: Identity)
    ensures Known(Taken(devices, o, source, now), ident) <==>
            Known(devices, ident) || (o.Valid? && RowIdentity(o.row) == ident)
  {
    var after := Taken(devices, o, source, now);
    if o.Valid? {
      var k := FindByIdentity(devices, RowIdentity(o.row));
      assert IdentityIn(after[k]) == RowIdentity(o.row);
      assert forall i :: 0 <= i < |devices| ==> IdentityIn(after[i]) == IdentityIn(devices[i]);
    }
  }

  lemma MentionedSnoc(most: seq<Outcome>, o: Outcome, ident: Identity)
    ensures Mentioned(most + [o], ident) <==> Mentioned(most, ident) || (o.Valid? && RowIdentity(o.row) == ident)
  {
    var all := most + [o];
    assert all[|most|] == o && forall i :: 0 <= i < |most| ==> all[i] == most[i];
  }

  /** The table knows exactly the identities it knew before and those of the valid rows. */
  lemma {:induction false} ImportKnowsExactly(devices: seq<Device>, outcomes: seq<Outcome>, source: string, now: int,
                                              ident: Identity)
    ensures Known(UpsertedAll(devices, outcomes, source, now), ident) <==>
            Known(devices, ident) || Mentioned(outcomes, ident)
  {
    if outcomes == [] {
    } else {
      var most, last := outcomes[..|outcomes| - 1], outcomes[|outcomes| - 1];
      ImportKnowsExactly(devices, most, source, now, ident);
      TakingMakesKnown(UpsertedAll(devices, most, source, now), last, source, now, ident);
      MentionedSnoc(most, last, ident);
      assert outcomes == most + [last];
    }
  }

  ghost predicate Creates(devices: seq<Device>, done: seq<Outcome>, o: Outcome, source: string, now: int) {
    |UpsertedAll(devices, done + [o], source, now)| == |UpsertedAll(devices, done, source, now)| + 1
  }

  /** A row creates a device exactly when nobody before it, in the table or in the file, has its identity. */
  lemma RowCreatesIff(devices: seq<Device>, done: seq<Outcome>, o: Outcome, source: string, now: int)
    requires o.Valid?
    ensures Creates(devices, done, o, source, now) <==>
            !Known(devices, RowIdentity(o.row)) && !Mentioned(done, RowIdentity(o.row))
  {
    UpsertOneMore(devices, done, o, source, now);
    ImportKnowsExactly(devices, done, source, now, RowIdentity(o.row));
    var before := UpsertedAll(devices, done, source, now);
    var k := FindByIdentity(before, RowIdentity(o.row));
    assert k < |before| ==> Known(before, RowIdentity(o.row));
  }

  // ---- the key text --------------------------------------------------------

  /** Serial keys never collide with others; hostname keys collide when the joined texts do. */
  lemma KeyTextsAgreeIff(a: Identity, b: Identity)
    ensures KeyText(a) == KeyText(b) <==>
            a == b || (a.ByHostAndSite? && b.ByHostAndSite? && a.hostname + "|" + a.site == b.hostname + "|" + b.site)
  {
    match (a, b) {
      case (BySerial(s), BySerial(t)) => PrefixCancels("serial:", s, t);
      case (ByHostAndSite(h, s), ByHostAndSite(g, t)) =>
        assert KeyText(a) == "hs:" + (h + "|" + s);
        assert KeyText(b) == "hs:" + (g + "|" + t);
        PrefixCancels("hs:", h + "|" + s, g + "|" + t);
      case _ =>
        assert KeyText(a)[0] != KeyText(b)[0];
    }
  }

  lemma PrefixCancels(p: string, s: string, t: string)
    ensures p + s == p + t <==> s == t
  {
    if p + s == p + t {
      assert s == (p + s)[|p|..] && t == (p + t)[|p|..];
    }
  }

  /** When no hostname contains a bar, the key text tells all identities apart. */
  lemma KeyTextIsExactWithoutBars(a: Identity, b: Identity)
    requires a.ByHostAndSite? ==> '|' !in a.hostname
    requires b.ByHostAndSite? ==> '|' !in b.hostname
    ensures KeyText(a) == KeyText(b) <==> a == b
  {
    KeyTextsAgreeIff(a, b);
    if a.ByHostAndSite? && b.ByHostAndSite? && a.hostname + "|" + a.site == b.hostname + "|" + b.site {
      var x, y := a.hostname + "|" + a.site, b.hostname + "|" + b.site;
      assert x[|a.hostname|] == '|' && y[|b.hostname|] == '|';
      assert forall i :: 0 <= i < |a.hostname| ==> x[i] == a.hostname[i];
      assert forall i :: 0 <= i < |b.hostname| ==> y[i] == b.hostname[i];
      assert |a.hostname| == |b.hostname|;
      assert a.hostname == x[..|a.hostname|] && b.hostname == y[..|b.hostname|];
      assert a.site == x[|a.hostname| + 1..] && b.site == y[|b.hostname| + 1..];
    }
  }

  ghost predicate NoBars(outcomes: seq<Outcome>) {
    forall i :: 0 <= i < |outcomes| && outcomes[i].Valid? ==> '|' !in outcomes[i].row.hostname
  }

  lemma LowerAddsNoBar(s: string)
    requires '|' !in s
    ensures '|' !in Lower(s)
  {
    forall i | 0 <= i < |Lower(s)| ensures Lower(s)[i] != '|' {
      assert s[i] in s;
    }
  }

  lemma {:induction false} SeenKeyHasRow(outcomes: seq<Outcome>, key: string) returns (i: nat)
    requires key in KeysSeen(outcomes)
    ensures i < |outcomes| && outcomes[i].Valid? && RowKey(outcomes[i].row) == key
  {
    var most, last := outcomes[..|outcomes| - 1], outcomes[|outcomes| - 1];
    if key in KeysSeen(most) {
      i := SeenKeyHasRow(most, key);
    } else {
      i := |outcomes| - 1;
    }
  }

  /** With hostnames free of bars, a row counted as a duplicate never creates a device. */
  lemma DuplicateNeverCreates(devices: seq<Device>, done: seq<Outcome>, o: Outcome, source: string, now: int)
    requires o.Valid? && NoBars(done) && '|' !in o.row.hostname
    requires RowKey(o.row) in KeysSeen(done)
    ensures !Creates(devices, done, o, source, now)
  {
    var i := SeenKeyHasRow(done, RowKey(o.row));
    LowerAddsNoBar(o.row.hostname);
    LowerAddsNoBar(done[i].row.hostname);
    KeyTextIsExactWithoutBars(RowIdentity(o.row), RowIdentity(done[i].row));
    RowCreatesIff(devices, done, o, source, now);
    assert Mentioned(done, RowIdentity(o.row));
  }

  function BarRow(hostname: string, site: string): CsvRow {
    CsvRow(None, hostname, site, Facts(None, None, None, None, None, None, None), "v", "m")
  }

  /** The condition is needed: two boxes whose joined names read the same make a duplicate that creates a device. */
  lemma BarMakesDuplicateCreate(n: Normalization)
    ensures var first, second := Valid(2, BarRow("a|b", "c"), n), Valid(3, BarRow("a", "b|c"), n);
            && RowKey(second.row) in KeysSeen([first])
            && Creates([], [first], second, "csv", 0)
  {
    var first, second := Valid(2, BarRow("a|b", "c"), n), Valid(3, BarRow("a", "b|c"), n);
    var a, b := RowIdentity(first.row), RowIdentity(second.row);
    assert Lower("a|b") == "a|b" && Lower("c") == "c" && Lower("a") == "a" && Lower("b|c") == "b|c";
    assert a == ByHostAndSite("a|b", "c") && b == ByHostAndSite("a", "b|c");
    assert |"a|b"| != |"a"|;
    assert "a|b" + "|" + "c" == "a" + "|" + "b|c";
    KeyTextsAgreeIff(a, b);
    OneMoreRow([], first);
    assert [first] == [] + [first];
    MentionedSnoc([], first, b);
    RowCreatesIff([], [first], second, "csv", 0);
  }

  // ---- the last word -------------------------------------------------------

  /** The valid rows about one device, in file order. */
  ghost function RowsAbout(outcomes: seq<Outcome>, ident: Identity): (r: seq<Outcome>)
    ensures forall i :: 0 <= i < |r| ==> r[i].Valid?
  {
    if outcomes == [] then []
    else
      var most, last := RowsAbout(outcomes[..|outcomes| - 1], ident), outcomes[|outcomes| - 1];
      if last.Valid? && RowIdentity(last.row) == ident then most + [last] else most
  }

  ghost function Column<T>(rows: seq<Outcome>, f: (CsvRow, Normalization) -> Option<T>): (c: seq<Option<T>>)
    requires forall i :: 0 <= i < |rows| ==> rows[i].Valid?
    ensures |c| == |rows|
    ensures forall i :: 0 <= i < |c| ==> c[i] == f(rows[i].row, rows[i].norm)
  {
    seq(|rows|, i requires 0 <= i < |rows| && rows[i].Valid? => f(rows[i].row, rows[i].norm))
  }

  ghost function Latest<T>(initial: Option<T>, column: seq<Option<T>>): Option<T> {
    if column == [] then initial else Overlay(Latest(initial, column[..|column| - 1]), column[|column| - 1])
  }

  /** The latest value is the last one that is present, or the initial value if none is. */
  lemma {:induction false} LatestIsLastPresent<T>(initial: Option<T>, column: seq<Option<T>>)
    ensures (forall k :: 0 <= k < |column| ==> column[k].None?) ==> Latest(initial, column) == initial
    ensures forall k :: 0 <= k < |column| && column[k].Some? && (forall j :: k < j < |column| ==> column[j].None?) ==>
              Latest(initial, column) == column[k]
  {
    if column == [] {
    } else {
      var most, last := column[..|column| - 1], column[|column| - 1];
      LatestIsLastPresent(initial, most);
      forall k | 0 <= k < |column| && column[k].Some? && (forall j :: k < j < |column| ==> column[j].None?)
        ensures Latest(initial, column) == column[k]
      {
        if k < |most| {
          assert most[k] == column[k] && last.None?;
        }
      }
    }
  }

  ghost function FoldFacts(start: Facts, rows: seq<Outcome>): Facts
    requires forall i :: 0 <= i < |rows| ==> rows[i].Valid?
  {
    if rows == [] then start else OverlayFacts(FoldFacts(start, rows[..|rows| - 1]), rows[|rows| - 1].row.facts)
  }

  /** Every optional column of the fold holds the last value that a row gave for it. */
  lemma {:induction false} FoldTakesLatest(start: Facts, rows: seq<Outcome>)
    requires forall i :: 0 <= i < |rows| ==> rows[i].Valid?
    ensures var f := FoldFacts(start, rows);
            && f.region == Latest(start.region, Column(rows, (r: CsvRow, n: Normalization) => r.facts.region))
            && f.role == Latest(start.role, Column(rows, (r: CsvRow, n: Normalization) => r.facts.role))
            && f.managementIp == Latest(start.managementIp,
                                        Column(rows, (r: CsvRow, n: Normalization) => r.facts.managementIp))
            && f.hardwareRevision == Latest(start.hardwareRevision,
                                            Column(rows, (r: CsvRow, n: Normalization) => r.facts.hardwareRevision))
            && f.ramMb == Latest(start.ramMb, Column(rows, (r: CsvRow, n: Normalization) => r.facts.ramMb))
            && f.diskMb == Latest(start.diskMb, Column(rows, (r: CsvRow, n: Normalization) => r.facts.diskMb))
            && f.licenses == Latest(start.licenses, Column(rows, (r: CsvRow, n: Normalization) => r.facts.licenses))
  {
    if rows == [] {
    } else {
      var most := rows[..|rows| - 1];
      FoldTakesLatest(start, most);
      ColumnPrefix(rows, (r: CsvRow, n: Normalization) => r.facts.region);
      ColumnPrefix(rows, (r: CsvRow, n: Normalization) => r.facts.role);
      ColumnPrefix(rows, (r: CsvRow, n: Normalization) => r.facts.managementIp);
      ColumnPrefix(rows, (r: CsvRow, n: Normalization) => r.facts.hardwareRevision);
      ColumnPrefix(rows, (r: CsvRow, n: Normalization) => r.facts.ramMb);
      ColumnPrefix(rows, (r: CsvRow, n: Normalization) => r.facts.diskMb);
      ColumnPrefix(rows, (r: CsvRow, n: Normalization) => r.facts.licenses);
    }
  }

  lemma ColumnPrefix<T>(rows: seq<Outcome>, f: (CsvRow, Normalization) -> Option<T>)
    requires rows != [] && forall i :: 0 <= i < |rows| ==> rows[i].Valid?
    ensures Column(rows, f)[..|rows| - 1] == Column(rows[..|rows| - 1], f)
  {
  }

  ghost function NoFacts(): Facts {
    Facts(None, None, None, None, None, None, None)
  }

  /** What normalization found: the last value that a row gave, over what was stored. */
  ghost predicate TellsNormalized(start: Option<Device>, rows: seq<Outcome>, d: Device)
    requires forall i :: 0 <= i < |rows| ==> rows[i].Valid?
  {
    && d.vendor == Latest(if start.Some? then start.value.vendor else None,
                          Column(rows, (r: CsvRow, n: Normalization) => n.vendor))
    && d.model == Latest(if start.Some? then start.value.model else None,
                         Column(rows, (r: CsvRow, n: Normalization) => n.model))
    && d.platform == Latest(if start.Some? then start.value.platform else None,
                            Column(rows, (r: CsvRow, n: Normalization) => n.platform))
  }

  /** What an import leaves alone: the identity of a device, once it has one, its tags and its link to NetBox. */
  ghost predicate KeepsIdentity(start: Option<Device>, first: CsvRow, d: Device) {
    if start.Some? then
      var was := start.value;
      && d.serial == was.serial && d.hostname == was.hostname && d.site == was.site
      && d.tags == was.tags && d.netboxId == was.netboxId && d.netboxSyncedAt == was.netboxSyncedAt
    else
      && d.serial == first.serial && d.hostname == first.hostname && d.site == first.site
      && d.tags == None && d.netboxId == None && d.netboxSyncedAt == None
  }

  /** A device after the rows about it, starting from what was stored, if anything was. */
  ghost predicate TellsLast(start: Option<Device>, rows: seq<Outcome>, source: string, now: int, d: Device)
    requires forall i :: 0 <= i < |rows| ==> rows[i].Valid?
  {
    if rows == [] then start == Some(d)
    else
      var last := rows[|rows| - 1];
      && d.vendorRaw == last.row.vendorRaw && d.modelRaw == last.row.modelRaw
      && d.facts == FoldFacts(if start.Some? then start.value.facts else NoFacts(), rows)
      && d.lifecycle == LifecycleAfter(if start.Some? then start.value.lifecycle else "imported", rows)
      && d.source == source && d.updatedAt == now
      && TellsNormalized(start, rows, d) && KeepsIdentity(start, rows[0].row, d)
  }

  ghost predicate SomeClassified(rows: seq<Outcome>)
    requires forall i :: 0 <= i < |rows| ==> rows[i].Valid?
  {
    exists i :: 0 <= i < |rows| && !rows[i].norm.manualReview
  }

  /** An import moves a lifecycle from imported to classified, and does nothing else to it. */
  ghost function LifecycleAfter(lifecycle: string, rows: seq<Outcome>): string
    requires forall i :: 0 <= i < |rows| ==> rows[i].Valid?
  {
    if lifecycle == "imported" && SomeClassified(rows) then "classified" else lifecycle
  }

  lemma LifecycleSnoc(lifecycle: string, rows: seq<Outcome>, o: Outcome)
    requires o.Valid? && forall i :: 0 <= i < |rows| ==> rows[i].Valid?
    ensures LifecycleAfter(lifecycle, rows + [o]) ==
            if !o.norm.manualReview && LifecycleAfter(lifecycle, rows) == "imported" then "classified"
            else LifecycleAfter(lifecycle, rows)
  {
    var all := rows + [o];
    assert all[|rows|] == o && forall i :: 0 <= i < |rows| ==> all[i] == rows[i];
    assert SomeClassified(all) <==> SomeClassified(rows) || !o.norm.manualReview;
  }

  lemma LatestSnoc<T>(initial: Option<T>, rows: seq<Outcome>, o: Outcome, f: (CsvRow, Normalization) -> Option<T>)
    requires o.Valid? && forall i :: 0 <= i < |rows| ==> rows[i].Valid?
    ensures Latest(initial, Column(rows + [o], f)) == Overlay(Latest(initial, Column(rows, f)), f(o.row, o.norm))
  {
    var column := Column(rows + [o], f);
    assert column[..|column| - 1] == Column(rows, f);
  }

  lemma RefreshTellsNormalized(start: Option<Device>, rows: seq<Outcome>, d: Device, o: Outcome, source: string,
                               now: int)
    requires o.Valid? && forall i :: 0 <= i < |rows| ==> rows[i].Valid?
    requires TellsNormalized(start, rows, d)
    ensures TellsNormalized(start, rows + [o], Refreshed(d, o.row, o.norm, source, now))
  {
    LatestSnoc(if start.Some? then start.value.vendor else None, rows, o, (r: CsvRow, n: Normalization) => n.vendor);
    LatestSnoc(if start.Some? then start.value.model else None, rows, o, (r: CsvRow, n: Normalization) => n.model);
    LatestSnoc(if start.Some? then start.value.platform else None, rows, o,
               (r: CsvRow, n: Normalization) => n.platform);
  }

  lemma StoredDeviceTellsItself(start: Option<Device>, rows: seq<Outcome>, d: Device)
    requires rows == [] && start == Some(d)
    ensures TellsNormalized(start, rows, d)
  {
  }

  lemma RefreshTellsLast(start: Option<Device>, rows: seq<Outcome>, d: Device, o: Outcome, source: string, now: int)
    requires o.Valid? && forall i :: 0 <= i < |rows| ==> rows[i].Valid?
    requires TellsLast(start, rows, source, now, d)
    ensures TellsLast(start, rows + [o], source, now, Refreshed(d, o.row, o.norm, source, now))
  {
    var all := rows + [o];
    assert all[..|all| - 1] == rows && all[|all| - 1] == o && (rows != [] ==> all[0] == rows[0]);
    LifecycleSnoc(if start.Some? then start.value.lifecycle else "imported", rows, o);
    if rows == [] {
      StoredDeviceTellsItself(start, rows, d);
    }
    RefreshTellsNormalized(start, rows, d, o, source, now);
  }

  lemma {:induction false} FoldOne(o: Outcome)
    requires o.Valid?
    ensures FoldFacts(NoFacts(), [o]) == o.row.facts
  {
    assert [o][..0] == [];
    assert FoldFacts(NoFacts(), [o][..0]) == NoFacts();
  }

  lemma NewDeviceTellsNormalized(o: Outcome, source: string, now: int)
    requires o.Valid?
    ensures TellsNormalized(None, [o], NewDevice(o.row, o.norm, source, now))
  {
    var none: seq<Outcome> := [];
    assert none + [o] == [o];
    LatestSnoc(None, none, o, (r: CsvRow, n: Normalization) => n.vendor);
    LatestSnoc(None, none, o, (r: CsvRow, n: Normalization) => n.model);
    LatestSnoc(None, none, o, (r: CsvRow, n: Normalization) => n.platform);
  }

  lemma {:induction false} NewDeviceTellsFirst(o: Outcome, source: string, now: int)
    requires o.Valid?
    ensures TellsLast(None, [o], source, now, NewDevice(o.row, o.norm, source, now))
  {
    FoldOne(o);
    NewDeviceTellsNormalized(o, source, now);
    assert [o][0] == o;
    assert SomeClassified([o]) <==> !o.norm.manualReview;
  }

  ghost function StoredAt(devices: seq<Device>, i: nat): Option<Device> {
    if i < |devices| then Some(devices[i]) else None
  }

  lemma {:induction false} NobodySpeaksOfStrangers(outcomes: seq<Outcome>, ident: Identity)
    requires !Mentioned(outcomes, ident)
    ensures RowsAbout(outcomes, ident) == []
  {
    if outcomes == [] {
    } else {
      var most, last := outcomes[..|outcomes| - 1], outcomes[|outcomes| - 1];
      assert outcomes == most + [last];
      MentionedSnoc(most, last, ident);
      NobodySpeaksOfStrangers(most, ident);
    }
  }

  lemma {:induction false} RowsAboutSnoc(most: seq<Outcome>, last: Outcome, ident: Identity)
    ensures RowsAbout(most + [last], ident) ==
            RowsAbout(most, ident) + (if last.Valid? && RowIdentity(last.row) == ident then [last] else [])
  {
    var all := most + [last];
    assert all[..|all| - 1] == most && all[|most|] == last;
  }

  /** One more row keeps the account of a device that is known already. */
  lemma KnownGoesOn(start: Option<Device>, most: seq<Outcome>, last: Outcome, before: seq<Device>, i: nat,
                    source: string, now: int)
    requires UniqueIdentities(before) && i < |before|
    requires TellsLast(start, RowsAbout(most, IdentityIn(before[i])), source, now, before[i])
    ensures var d := Taken(before, last, source, now)[i];
            TellsLast(start, RowsAbout(most + [last], IdentityIn(d)), source, now, d)
  {
    RowsAboutSnoc(most, last, IdentityIn(before[i]));
    if last.Valid? && RowIdentity(last.row) == IdentityIn(before[i]) {
      FindIsTheDevice(before, i);
      RefreshTellsLast(start, RowsAbout(most, IdentityIn(before[i])), before[i], last, source, now);
    }
  }

  /** The row that creates a device is the first one about it. */
  lemma NewOneBegins(devices: seq<Device>, most: seq<Outcome>, last: Outcome, source: string, now: int)
    requires last.Valid? && Creates(devices, most, last, source, now)
    ensures var d := NewDevice(last.row, last.norm, source, now);
            TellsLast(None, RowsAbout(most + [last], IdentityIn(d)), source, now, d)
  {
    RowCreatesIff(devices, most, last, source, now);
    NobodySpeaksOfStrangers(most, RowIdentity(last.row));
    RowsAboutSnoc(most, last, RowIdentity(last.row));
    NewDeviceTellsFirst(last, source, now);
  }

  /**
   Every device ends with the raw vendor and model of the last row about it, with the last present
   value in each optional and in each normalized column, and with its lifecycle advanced at most from
   imported to classified; a device that no row is about is exactly as it was.
  */
  lemma {:induction false} LastRowHasTheLastWord(devices: seq<Device>, outcomes: seq<Outcome>, source: string, now: int,
                                                 i: nat)
    requires UniqueIdentities(devices) && i < |UpsertedAll(devices, outcomes, source, now)|
    ensures var d := UpsertedAll(devices, outcomes, source, now)[i];
            TellsLast(StoredAt(devices, i), RowsAbout(outcomes, IdentityIn(d)), source, now, d)
  {
    if outcomes == [] {
    } else {
      var most, last := outcomes[..|outcomes| - 1], outcomes[|outcomes| - 1];
      var before := UpsertedAll(devices, most, source, now);
      IdentitiesStayUnique(devices, most, source, now);
      assert outcomes == most + [last];
      UpsertOneMore(devices, most, last, source, now);
      if i < |before| {
        LastRowHasTheLastWord(devices, most, source, now, i);
        KnownGoesOn(StoredAt(devices, i), most, last, before, i, source, now);
      } else {
        NewOneBegins(devices, most, last, source, now);
      }
    }
  }
}
