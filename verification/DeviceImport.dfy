/** The row loop of a CSV import: counters, deduplication within the file, and the device upsert. */
module DeviceImport {
  import opened Prelude
  import opened Devices

  datatype CsvRow = CsvRow(serial: Option<string>, hostname: string, site: string, facts: Facts, vendorRaw: string,
                           modelRaw: string)

  /** What normalization found for a row; a field it does not mention is left alone. */
  datatype Normalization = Normalization(manualReview: bool, vendor: Option<string>, model: Option<string>,
                                         platform: Option<string>)

  /** A data row after parsing and validation. */
  datatype Outcome = Rejected(rowNumber: nat) | Valid(rowNumber: nat, row: CsvRow, norm: Normalization)

  datatype ErrorRow = Invalid(rowNumber: nat) | DuplicateInFile(rowNumber: nat)

  datatype Counters = Counters(total: nat, accepted: nat, rejected: nat, manualReview: nat, duplicate: nat,
                               created: nat, updated: nat)

  datatype Observation = Observation(device: nat, row: CsvRow)

  function RowIdentity(r: CsvRow): Identity {
    IdentityOf(r.serial, r.hostname, r.site)
  }

  /** The text by which rows of one file are compared. */
  function KeyText(i: Identity): string {
    match i
    case BySerial(s) => "serial:" + s
    case ByHostAndSite(h, s) => "hs:" + h + "|" + s
  }

  function RowKey(r: CsvRow): string {
    KeyText(RowIdentity(r))
  }

  // ---- the upsert ----------------------------------------------------------

  function Overlay<T>(older: Option<T>, newer: Option<T>): Option<T> {
    if newer.Some? then newer else older
  }

  function OverlayFacts(a: Facts, b: Facts): Facts {
    Facts(Overlay(a.region, b.region), Overlay(a.role, b.role), Overlay(a.managementIp, b.managementIp),
          Overlay(a.hardwareRevision, b.hardwareRevision), Overlay(a.ramMb, b.ramMb), Overlay(a.diskMb, b.diskMb),
          Overlay(a.licenses, b.licenses))
  }

  function NewDevice(r: CsvRow, n: Normalization, source: string, now: int): Device {
    Device(r.serial, r.hostname, r.site, r.facts, r.vendorRaw, r.modelRaw, n.vendor, n.model, n.platform, None,
           None, None, source, if n.manualReview then "imported" else "classified", now)
  }

  /** Serial, hostname and site of a known device are never rewritten. */
  function Refreshed(d: Device, r: CsvRow, n: Normalization, source: string, now: int): Device {
    d.(vendorRaw := r.vendorRaw, modelRaw := r.modelRaw, facts := OverlayFacts(d.facts, r.facts),
       vendor := Overlay(d.vendor, n.vendor), model := Overlay(d.model, n.model),
       platform := Overlay(d.platform, n.platform),
       lifecycle := if !n.manualReview && d.lifecycle == "imported" then "classified" else d.lifecycle,
       source := source, updatedAt := now)
  }

  /** The row has the identity of the device. */
  ghost predicate IsAbout(r: CsvRow, d: Device) {
    SameIdentity(r.serial, r.hostname, r.site, d.serial, d.hostname, d.site)
  }

  /** A new device has the columns of the row, and what normalization found decides where its lifecycle begins. */
  ghost predicate BornFrom(d: Device, r: CsvRow, n: Normalization, source: string, now: int) {
    && d.serial == r.serial && d.hostname == r.hostname && d.site == r.site && d.facts == r.facts
    && d.vendorRaw == r.vendorRaw && d.modelRaw == r.modelRaw
    && d.vendor == n.vendor && d.model == n.model && d.platform == n.platform
    && d.tags == None && d.netboxId == None && d.netboxSyncedAt == None
    && d.lifecycle == (if n.manualReview then "imported" else "classified")
    && d.source == source && d.updatedAt == now
  }

  /** The new value if there is one, and else the old one. */
  ghost predicate Overlaid<T>(before: Option<T>, given: Option<T>, after: Option<T>) {
    if given.Some? then after == given else after == before
  }

  /**
   A known device takes the raw vendor and model of the row, and every optional value that is there;
   an imported one becomes classified unless the row needs review. Its identity, its tags and its link
   to NetBox are not touched.
  */
  ghost predicate RefreshedBy(before: Device, d: Device, r: CsvRow, n: Normalization, source: string, now: int) {
    && d.serial == before.serial && d.hostname == before.hostname && d.site == before.site
    && d.tags == before.tags && d.netboxId == before.netboxId && d.netboxSyncedAt == before.netboxSyncedAt
    && d.vendorRaw == r.vendorRaw && d.modelRaw == r.modelRaw && d.source == source && d.updatedAt == now
    && Overlaid(before.facts.region, r.facts.region, d.facts.region)
    && Overlaid(before.facts.role, r.facts.role, d.facts.role)
    && Overlaid(before.facts.managementIp, r.facts.managementIp, d.facts.managementIp)
    && Overlaid(before.facts.hardwareRevision, r.facts.hardwareRevision, d.facts.hardwareRevision)
    && Overlaid(before.facts.ramMb, r.facts.ramMb, d.facts.ramMb)
    && Overlaid(before.facts.diskMb, r.facts.diskMb, d.facts.diskMb)
    && Overlaid(before.facts.licenses, r.facts.licenses, d.facts.licenses)
    && Overlaid(before.vendor, n.vendor, d.vendor) && Overlaid(before.model, n.model, d.model)
    && Overlaid(before.platform, n.platform, d.platform)
    && d.lifecycle == (if before.lifecycle == "imported" && !n.manualReview then "classified" else before.lifecycle)
  }

  function Upserted(devices: seq<Device>, r: CsvRow, n: Normalization, source: string, now: int): seq<Device> {
    var i := FindByIdentity(devices, RowIdentity(r));
    if i < |devices| then devices[i := Refreshed(devices[i], r, n, source, now)]
    else devices + [NewDevice(r, n, source, now)]
  }

  function Taken(devices: seq<Device>, o: Outcome, source: string, now: int): seq<Device> {
    if o.Valid? then Upserted(devices, o.row, o.norm, source, now) else devices
  }

  /** The table after the valid rows of a file, in order. */
  ghost function UpsertedAll(devices: seq<Device>, outcomes: seq<Outcome>, source: string, now: int): seq<Device> {
    if outcomes == [] then devices
    else Taken(UpsertedAll(devices, outcomes[..|outcomes| - 1], source, now), outcomes[|outcomes| - 1], source, now)
  }

  /** A valid row is recorded as an observation of the device it is about, a duplicate row too. */
  function Observed(devices: seq<Device>, o: Outcome): seq<Observation> {
    if o.Valid? then [Observation(FindByIdentity(devices, RowIdentity(o.row)), o.row)] else []
  }

  ghost function ObservedAll(devices: seq<Device>, outcomes: seq<Outcome>, source: string, now: int): seq<Observation> {
    if outcomes == [] then []
    else
      var most, last := outcomes[..|outcomes| - 1], outcomes[|outcomes| - 1];
      ObservedAll(devices, most, source, now) + Observed(UpsertedAll(devices, most, source, now), last)
  }

  /** A valid row whose key no earlier valid row has. */
  ghost predicate First(outcomes: seq<Outcome>, i: int) {
    && 0 <= i < |outcomes| && outcomes[i].Valid?
    && forall j :: 0 <= j < i && outcomes[j].Valid? ==> RowKey(outcomes[j].row) != RowKey(outcomes[i].row)
  }

  ghost predicate Repeated(outcomes: seq<Outcome>, i: int) {
    0 <= i < |outcomes| && outcomes[i].Valid? && !First(outcomes, i)
  }

  ghost function RejectedRows(outcomes: seq<Outcome>): set<int> {
    set i | 0 <= i < |outcomes| && outcomes[i].Rejected?
  }

  ghost function RepeatedRows(outcomes: seq<Outcome>): set<int> {
    set i | 0 <= i < |outcomes| && Repeated(outcomes, i)
  }

  /** The rows of a new key, by whether they need review. */
  ghost function FirstRows(outcomes: seq<Outcome>, manualReview: bool): set<int> {
    set i | 0 <= i < |outcomes| && First(outcomes, i) && outcomes[i].norm.manualReview == manualReview
  }

  /** Each row of the file is in exactly one of the four counters. */
  ghost predicate CountsRows(c: Counters, outcomes: seq<Outcome>) {
    && c.total == |outcomes| && c.rejected == |RejectedRows(outcomes)| && c.duplicate == |RepeatedRows(outcomes)|
    && c.manualReview == |FirstRows(outcomes, true)| && c.accepted == |FirstRows(outcomes, false)|
  }

  /** The complaint about a row: that it is invalid, or that a later row supersedes an earlier one of its key. */
  ghost predicate Complaint(outcomes: seq<Outcome>, i: int, e: ErrorRow) {
    && 0 <= i < |outcomes|
    && if outcomes[i].Rejected? then e == Invalid(outcomes[i].rowNumber)
       else Repeated(outcomes, i) && e == DuplicateInFile(outcomes[i].rowNumber)
  }

  /** The error rows are the complaints about the rows at these places, in file order, and there are no others. */
  ghost predicate Complains(outcomes: seq<Outcome>, errors: seq<ErrorRow>, at: seq<nat>) {
    && |at| == |errors| && Ascending(at)
    && (forall k :: 0 <= k < |at| ==> Complaint(outcomes, at[k], errors[k]))
    && (forall i :: 0 <= i < |outcomes| && (outcomes[i].Rejected? || Repeated(outcomes, i)) ==> i in at)
  }

  /** The observation of the valid row at this place names the row and the device it is about. */
  ghost predicate ObservedAt(outcomes: seq<Outcome>, devices: seq<Device>, i: nat, o: Observation) {
    && i < |outcomes| && outcomes[i].Valid? && o.row == outcomes[i].row
    && o.device < |devices| && IsAbout(o.row, devices[o.device])
  }

  /** The new observations are those of the valid rows at these places, in file order. */
  ghost predicate Observes(outcomes: seq<Outcome>, devices: seq<Device>, tail: seq<Observation>, at: seq<nat>) {
    && |at| == |tail| && Ascending(at)
    && (forall k :: 0 <= k < |at| ==> ObservedAt(outcomes, devices, at[k], tail[k]))
    && (forall i :: 0 <= i < |outcomes| && outcomes[i].Valid? ==> i in at)
  }

  ghost function KeysSeen(outcomes: seq<Outcome>): set<string> {
    if outcomes == [] then {}
    else
      var before, last := KeysSeen(outcomes[..|outcomes| - 1]), outcomes[|outcomes| - 1];
      if last.Valid? then before + {RowKey(last.row)} else before
  }

  datatype RowKind = RejectedRow | RepeatedRow | ReviewedRow | AcceptedRow

  ghost function KindOf(seen: set<string>, o: Outcome): RowKind {
    if o.Rejected? then RejectedRow
    else if RowKey(o.row) in seen then RepeatedRow
    else if o.norm.manualReview then ReviewedRow
    else AcceptedRow
  }

  /** What each row of the file is, going by the keys before it. */
  ghost function Kinds(outcomes: seq<Outcome>): (kinds: seq<RowKind>)
    ensures |kinds| == |outcomes|
  {
    if outcomes == [] then []
    else
      var most, last := outcomes[..|outcomes| - 1], outcomes[|outcomes| - 1];
      Kinds(most) + [KindOf(KeysSeen(most), last)]
  }

  ghost function Count(kinds: seq<RowKind>, kind: RowKind): nat {
    if kinds == [] then 0
    else Count(kinds[..|kinds| - 1], kind) + (if kinds[|kinds| - 1] == kind then 1 else 0)
  }

  ghost function Places(kinds: seq<RowKind>, kind: RowKind): set<int> {
    set i | 0 <= i < |kinds| && kinds[i] == kind
  }

  ghost function Complaints(kind: RowKind, rowNumber: nat): seq<ErrorRow> {
    match kind
    case RejectedRow => [Invalid(rowNumber)]
    case RepeatedRow => [DuplicateInFile(rowNumber)]
    case _ => []
  }

  ghost function ErrorsOf(outcomes: seq<Outcome>): seq<ErrorRow> {
    if outcomes == [] then []
    else
      var most, last := outcomes[..|outcomes| - 1], outcomes[|outcomes| - 1];
      ErrorsOf(most) + Complaints(KindOf(KeysSeen(most), last), last.rowNumber)
  }

  /** What the loop has counted and reported so far, and the keys it has seen. */
  datatype Sheet = Sheet(accepted: nat, rejected: nat, manualReview: nat, duplicate: nat, errors: seq<ErrorRow>,
                         seenKeys: set<string>)

  ghost function NextSheet(s: Sheet, o: Outcome): Sheet {
    if o.Rejected? then s.(rejected := s.rejected + 1, errors := s.errors + [Invalid(o.rowNumber)])
    else
      var keys := s.seenKeys + {RowKey(o.row)};
      match KindOf(s.seenKeys, o)
      case ReviewedRow => s.(manualReview := s.manualReview + 1, seenKeys := keys)
      case AcceptedRow => s.(accepted := s.accepted + 1, seenKeys := keys)
      case _ => s.(duplicate := s.duplicate + 1, errors := s.errors + [DuplicateInFile(o.rowNumber)], seenKeys := keys)
  }

  ghost function SheetOf(outcomes: seq<Outcome>): Sheet {
    if outcomes == [] then Sheet(0, 0, 0, 0, [], {})
    else NextSheet(SheetOf(outcomes[..|outcomes| - 1]), outcomes[|outcomes| - 1])
  }

  class ImportController {
    var devices: seq<Device>
    var observations: seq<Observation>

    constructor ()
      ensures devices == [] && observations == []
    {
      devices, observations := [], [];
    }

    /**
     The device with the identity of the row is refreshed in place; if there is none, one is created
     behind the others, which stay as they are.
    */
    method UpsertFromRow(r: CsvRow, n: Normalization, source: string, now: int) returns (device: nat, created: bool)
      modifies this`devices
      ensures devices == Upserted(old(devices), r, n, source, now)
      ensures device == FindByIdentity(old(devices), RowIdentity(r)) < |devices|
      ensures created <==> forall i :: 0 <= i < |old(devices)| ==> !IsAbout(r, old(devices)[i])
      ensures created ==> device == |old(devices)| && devices == old(devices) + [devices[device]]
      ensures created ==> BornFrom(devices[device], r, n, source, now)
      ensures !created ==> device < |old(devices)| && IsAbout(r, old(devices)[device])
      ensures !created ==> devices == old(devices)[device := devices[device]]
      ensures !created ==> RefreshedBy(old(devices)[device], devices[device], r, n, source, now)
    {
      forall i | 0 <= i < |devices| ensures IsAbout(r, devices[i]) <==> IdentityIn(devices[i]) == RowIdentity(r) {
        IdentitiesAgreeIff(r.serial, r.hostname, r.site, devices[i].serial, devices[i].hostname, devices[i].site);
      }
      device := FindByIdentity(devices, RowIdentity(r));
      created := device == |devices|;
      if created {
        devices := devices + [NewDevice(r, n, source, now)];
      } else {
        devices := devices[device := Refreshed(devices[device], r, n, source, now)];
      }
    }

    /** Takes in one row: a rejected one is only counted; a valid one is upserted and observed. */
    method ImportRow(o: Outcome, before: Counters, errors: seq<ErrorRow>, seenKeys: set<string>, source: string,
                     now: int)
      returns (c: Counters, allErrors: seq<ErrorRow>, allKeys: set<string>)
      modifies this
      ensures devices == Taken(old(devices), o, source, now)
      ensures observations == old(observations) + Observed(old(devices), o)
      ensures Written(c, allErrors, allKeys) == NextSheet(Written(before, errors, seenKeys), o)
      ensures c.total == before.total + 1 && c.created == before.created + |devices| - |old(devices)|
      ensures c.created + c.updated == before.created + before.updated + (if o.Valid? then 1 else 0)
    {
      var created := false;
      if o.Valid? {
        var device: nat;
        device, created := UpsertFromRow(o.row, o.norm, source, now);
        observations := observations + [Observation(device, o.row)];
      }
      c, allErrors, allKeys := CountRow(o, created, before, errors, seenKeys);
    }

    /** The counters of the row, and its complaint. */
    method CountRow(o: Outcome, created: bool, before: Counters, errors: seq<ErrorRow>, seenKeys: set<string>)
      returns (c: Counters, allErrors: seq<ErrorRow>, allKeys: set<string>)
      ensures Written(c, allErrors, allKeys) == NextSheet(Written(before, errors, seenKeys), o)
      ensures c.total == before.total + 1
      ensures c.created == before.created + (if o.Valid? && created then 1 else 0)
      ensures c.created + c.updated == before.created + before.updated + (if o.Valid? then 1 else 0)
    {
      c, allErrors, allKeys := before.(total := before.total + 1), errors, seenKeys;
      if o.Rejected? {
        c, allErrors := c.(rejected := c.rejected + 1), errors + [Invalid(o.rowNumber)];
        return;
      }
      c := if created then c.(created := c.created + 1) else c.(updated := c.updated + 1);
      allKeys := seenKeys + {RowKey(o.row)};
      if RowKey(o.row) in seenKeys {
        c, allErrors := c.(duplicate := c.duplicate + 1), errors + [DuplicateInFile(o.rowNumber)];
      } else if o.norm.manualReview {
        c := c.(manualReview := c.manualReview + 1);
      } else {
        c := c.(accepted := c.accepted + 1);
      }
    }

    /**
     The import loop. Every row is counted once, under what it is; the complaints are listed in file
     order; every valid row is upserted and leaves one observation of its device; and the accepted and
     reviewed rows are the distinct keys of the file.
    */
    method RunSyncImport(outcomes: seq<Outcome>, source: string, now: int) returns (c: Counters, errors: seq<ErrorRow>)
      modifies this
      ensures CountsRows(c, outcomes) && c.accepted + c.manualReview == |KeysSeen(outcomes)|
      ensures c.total == c.accepted + c.rejected + c.manualReview + c.duplicate
      ensures c.created == |devices| - |old(devices)| && c.created + c.updated == c.total - c.rejected
      ensures |errors| == c.rejected + c.duplicate && exists at :: Complains(outcomes, errors, at)
      ensures old(observations) <= observations
      ensures exists at :: Observes(outcomes, devices, observations[|old(observations)|..], at)
      ensures devices == UpsertedAll(old(devices), outcomes, source, now)
    {
      ghost var start := devices;
      c, errors := ImportRows(outcomes, source, now);
      SheetIsExact(outcomes, c);
      ghost var complaints := ErrorsComplain(outcomes);
      ghost var rows := RowsAreObserved(start, outcomes, source, now);
      assert observations[|old(observations)|..] == ObservedAll(start, outcomes, source, now);
    }

    method ImportNext(o: Outcome, before: Counters, errors: seq<ErrorRow>, seenKeys: set<string>, source: string,
                      now: int, ghost start: seq<Device>, ghost seen: seq<Observation>, ghost done: seq<Outcome>)
      returns (c: Counters, allErrors: seq<ErrorRow>, allKeys: set<string>)
      requires Written(before, errors, seenKeys) == SheetOf(done)
      requires Stored(start, seen, done, source, now, devices, observations)
      modifies this
      ensures Written(c, allErrors, allKeys) == SheetOf(done + [o])
      ensures Stored(start, seen, done + [o], source, now, devices, observations)
      ensures c.total == before.total + 1 && c.created == before.created + |devices| - |old(devices)|
      ensures c.created + c.updated - c.total + c.rejected ==
              before.created + before.updated - before.total + before.rejected
    {
      SheetOneMore(done, o);
      StoreOneMore(start, seen, done, o, source, now, devices, observations);
      c, allErrors, allKeys := ImportRow(o, before, errors, seenKeys, source, now);
    }

    method ImportRows(outcomes: seq<Outcome>, source: string, now: int) returns (c: Counters, errors: seq<ErrorRow>)
      modifies this
      ensures Written(c, errors, SheetOf(outcomes).seenKeys) == SheetOf(outcomes) && c.total == |outcomes|
      ensures c.created == |devices| - |old(devices)| && c.created + c.updated == c.total - c.rejected
      ensures devices == UpsertedAll(old(devices), outcomes, source, now)
      ensures observations == old(observations) + ObservedAll(old(devices), outcomes, source, now)
    {
      c := Counters(0, 0, 0, 0, 0, 0, 0);
      errors := [];
      var seenKeys: set<string> := {};
      ghost var start, seen := devices, observations;
      ghost var done: seq<Outcome> := [];
      for i := 0 to |outcomes|
        invariant |done| == i && done <= outcomes
        invariant Written(c, errors, seenKeys) == SheetOf(done) && c.total == i
        invariant c.created == |devices| - |old(devices)| && c.created + c.updated == c.total - c.rejected
        invariant Stored(start, seen, done, source, now, devices, observations)
      {
        c, errors, seenKeys := ImportNext(outcomes[i], c, errors, seenKeys, source, now, start, seen, done);
        done := done + [outcomes[i]];
      }
      assert done == outcomes;
    }
  }

  /** The counters, the error rows and the keys of the loop, as a sheet. */
  function Written(c: Counters, errors: seq<ErrorRow>, seenKeys: set<string>): Sheet {
    Sheet(c.accepted, c.rejected, c.manualReview, c.duplicate, errors, seenKeys)
  }

  lemma {:induction false} SheetOneMore(done: seq<Outcome>, o: Outcome)
    ensures SheetOf(done + [o]) == NextSheet(SheetOf(done), o)
  {
    var all := done + [o];
    assert all[..|all| - 1] == done && all[|done|] == o;
  }

  lemma SeenAgain(seen: set<string>, key: string)
    ensures |seen + {key}| == |seen| + (if key in seen then 0 else 1)
  {
    assert key in seen ==> seen + {key} == seen;
  }

  /** What the loop has written after the rows `done`. */
  ghost predicate Stored(start: seq<Device>, seen: seq<Observation>, done: seq<Outcome>, source: string, now: int,
                          devices: seq<Device>, observations: seq<Observation>)
  {
    devices == UpsertedAll(start, done, source, now) && observations == seen + ObservedAll(start, done, source, now)
  }

  lemma {:induction false} UpsertOneMore(devices: seq<Device>, done: seq<Outcome>, o: Outcome, source: string, now: int)
    ensures UpsertedAll(devices, done + [o], source, now) ==
            Taken(UpsertedAll(devices, done, source, now), o, source, now)
    ensures ObservedAll(devices, done + [o], source, now) ==
            ObservedAll(devices, done, source, now) + Observed(UpsertedAll(devices, done, source, now), o)
  {
    var all := done + [o];
    assert all[..|all| - 1] == done && all[|done|] == o;
  }

  lemma StoreOneMore(start: seq<Device>, seen: seq<Observation>, done: seq<Outcome>, o: Outcome, source: string,
                     now: int,
                     devices: seq<Device>, observations: seq<Observation>)
    requires Stored(start, seen, done, source, now, devices, observations)
    ensures Stored(start, seen, done + [o], source, now, Taken(devices, o, source, now),
                    observations + Observed(devices, o))
  {
    UpsertOneMore(start, done, o, source, now);
  }

  lemma {:induction false} OneMoreRow(done: seq<Outcome>, o: Outcome)
    ensures ErrorsOf(done + [o]) == ErrorsOf(done) + Complaints(KindOf(KeysSeen(done), o), o.rowNumber)
    ensures Kinds(done + [o]) == Kinds(done) + [KindOf(KeysSeen(done), o)]
    ensures KeysSeen(done + [o]) == KeysSeen(done) + (if o.Valid? then {RowKey(o.row)} else {})
  {
    var all := done + [o];
    assert all[..|all| - 1] == done && all[|done|] == o;
  }

  // ---- the report against the file -----------------------------------------

  lemma {:induction false} SeenIff(outcomes: seq<Outcome>, key: string)
    ensures key in KeysSeen(outcomes) <==>
            exists i :: 0 <= i < |outcomes| && outcomes[i].Valid? && RowKey(outcomes[i].row) == key
  {
    if outcomes == [] {
    } else {
      var most, last := outcomes[..|outcomes| - 1], outcomes[|outcomes| - 1];
      SeenIff(most, key);
      if i :| 0 <= i < |most| && most[i].Valid? && RowKey(most[i].row) == key {
        assert outcomes[i] == most[i];
      }
      if i :| 0 <= i < |outcomes| && outcomes[i].Valid? && RowKey(outcomes[i].row) == key {
        assert i < |most| ==> most[i] == outcomes[i];
      }
    }
  }

  lemma {:induction false} CountSnoc(kinds: seq<RowKind>, last: RowKind, kind: RowKind)
    ensures Count(kinds + [last], kind) == Count(kinds, kind) + (if last == kind then 1 else 0)
  {
    var all := kinds + [last];
    assert all[..|all| - 1] == kinds && all[|kinds|] == last;
  }

  lemma {:induction false} CountIsPlaces(kinds: seq<RowKind>, kind: RowKind)
    ensures Count(kinds, kind) == |Places(kinds, kind)|
  {
    if kinds == [] {
    } else {
      CountIsPlaces(kinds[..|kinds| - 1], kind);
      PlacesOneMore(kinds[..|kinds| - 1], kinds[|kinds| - 1], kinds, kind);
    }
  }

  lemma PlacesOneMore(most: seq<RowKind>, last: RowKind, kinds: seq<RowKind>, kind: RowKind)
    requires kinds == most + [last]
    ensures |Places(kinds, kind)| == |Places(most, kind)| + (if last == kind then 1 else 0)
  {
    assert Places(kinds, kind) == Places(most, kind) + (if last == kind then {|most|} else {});
  }

  lemma {:induction false} SheetSeesKeys(outcomes: seq<Outcome>)
    ensures SheetOf(outcomes).seenKeys == KeysSeen(outcomes)
  {
    if outcomes == [] {
    } else {
      SheetSeesKeys(outcomes[..|outcomes| - 1]);
    }
  }

  lemma {:induction false} SheetListsErrors(outcomes: seq<Outcome>)
    ensures SheetOf(outcomes).errors == ErrorsOf(outcomes)
  {
    if outcomes == [] {
    } else {
      SheetSeesKeys(outcomes[..|outcomes| - 1]);
      SheetListsErrors(outcomes[..|outcomes| - 1]);
    }
  }

  ghost predicate Counts(s: Sheet, kinds: seq<RowKind>) {
    && s.accepted == Count(kinds, AcceptedRow) && s.rejected == Count(kinds, RejectedRow)
    && s.manualReview == Count(kinds, ReviewedRow) && s.duplicate == Count(kinds, RepeatedRow)
  }

  /** The sheet counts the rows of each kind. */
  lemma {:induction false} SheetCounts(outcomes: seq<Outcome>)
    ensures Counts(SheetOf(outcomes), Kinds(outcomes))
  {
    if outcomes == [] {
    } else {
      var most, last := outcomes[..|outcomes| - 1], outcomes[|outcomes| - 1];
      SheetSeesKeys(most);
      SheetCounts(most);
      CountsOneMore(SheetOf(most), Kinds(most), last);
    }
  }

  lemma CountsOneMore(s: Sheet, kinds: seq<RowKind>, o: Outcome)
    requires Counts(s, kinds)
    ensures Counts(NextSheet(s, o), kinds + [KindOf(s.seenKeys, o)])
  {
    CountSnoc(kinds, KindOf(s.seenKeys, o), AcceptedRow);
    CountSnoc(kinds, KindOf(s.seenKeys, o), RejectedRow);
    CountSnoc(kinds, KindOf(s.seenKeys, o), ReviewedRow);
    CountSnoc(kinds, KindOf(s.seenKeys, o), RepeatedRow);
  }

  lemma {:induction false} CountsAddUp(kinds: seq<RowKind>)
    ensures Count(kinds, AcceptedRow) + Count(kinds, RejectedRow) + Count(kinds, ReviewedRow) +
            Count(kinds, RepeatedRow) == |kinds|
  {
    if kinds == [] {
    } else {
      CountsAddUp(kinds[..|kinds| - 1]);
    }
  }

  lemma {:induction false} ErrorsAreCounted(outcomes: seq<Outcome>)
    ensures |ErrorsOf(outcomes)| == Count(Kinds(outcomes), RejectedRow) + Count(Kinds(outcomes), RepeatedRow)
  {
    if outcomes == [] {
    } else {
      var most, last := outcomes[..|outcomes| - 1], outcomes[|outcomes| - 1];
      ErrorsAreCounted(most);
      CountSnoc(Kinds(most), KindOf(KeysSeen(most), last), RejectedRow);
      CountSnoc(Kinds(most), KindOf(KeysSeen(most), last), RepeatedRow);
    }
  }

  /** Every key has its first row, accepted or reviewed. */
  lemma {:induction false} KeysAreCounted(outcomes: seq<Outcome>)
    ensures |KeysSeen(outcomes)| == Count(Kinds(outcomes), ReviewedRow) + Count(Kinds(outcomes), AcceptedRow)
  {
    if outcomes == [] {
    } else {
      var most, last := outcomes[..|outcomes| - 1], outcomes[|outcomes| - 1];
      KeysAreCounted(most);
      CountSnoc(Kinds(most), KindOf(KeysSeen(most), last), ReviewedRow);
      CountSnoc(Kinds(most), KindOf(KeysSeen(most), last), AcceptedRow);
      if last.Valid? {
        SeenAgain(KeysSeen(most), RowKey(last.row));
      }
    }
  }

  /** What a row is shows in the file: rejected, or valid and a repetition, or the first of its key. */
  ghost predicate KindShows(outcomes: seq<Outcome>, i: nat, kind: RowKind)
    requires i < |outcomes|
  {
    match kind
    case RejectedRow => outcomes[i].Rejected?
    case RepeatedRow => Repeated(outcomes, i)
    case ReviewedRow => First(outcomes, i) && outcomes[i].norm.manualReview
    case AcceptedRow => First(outcomes, i) && !outcomes[i].norm.manualReview
  }

  lemma {:induction false} KindAt(outcomes: seq<Outcome>, i: nat)
    requires i < |outcomes|
    ensures KindShows(outcomes, i, Kinds(outcomes)[i])
  {
    var most, last := outcomes[..|outcomes| - 1], outcomes[|outcomes| - 1];
    if i < |most| {
      KindAt(most, i);
      EarlierRowStays(outcomes, i);
    } else if last.Valid? {
      SeenIff(most, RowKey(last.row));
    }
  }

  /** What a row is does not depend on the rows behind it. */
  lemma EarlierRowStays(outcomes: seq<Outcome>, i: nat)
    requires i < |outcomes| - 1
    ensures First(outcomes, i) <==> First(outcomes[..|outcomes| - 1], i)
  {
    var most := outcomes[..|outcomes| - 1];
    assert forall j :: 0 <= j <= i ==> most[j] == outcomes[j];
  }

  lemma KindsShow(outcomes: seq<Outcome>)
    ensures var kinds := Kinds(outcomes);
            && RejectedRows(outcomes) == Places(kinds, RejectedRow)
            && RepeatedRows(outcomes) == Places(kinds, RepeatedRow)
            && FirstRows(outcomes, true) == Places(kinds, ReviewedRow)
            && FirstRows(outcomes, false) == Places(kinds, AcceptedRow)
  {
    forall i | 0 <= i < |outcomes| ensures KindShows(outcomes, i, Kinds(outcomes)[i]) {
      KindAt(outcomes, i);
    }
  }

  /** What the sheet says is what the file says. */
  lemma SheetIsExact(outcomes: seq<Outcome>, c: Counters)
    requires Written(c, SheetOf(outcomes).errors, SheetOf(outcomes).seenKeys) == SheetOf(outcomes)
    requires c.total == |outcomes|
    ensures CountsRows(c, outcomes) && SheetOf(outcomes).errors == ErrorsOf(outcomes)
    ensures c.total == c.accepted + c.rejected + c.manualReview + c.duplicate
    ensures c.accepted + c.manualReview == |KeysSeen(outcomes)| && |ErrorsOf(outcomes)| == c.rejected + c.duplicate
  {
    var kinds := Kinds(outcomes);
    SheetListsErrors(outcomes);
    SheetCounts(outcomes);
    CountsAddUp(kinds);
    KeysAreCounted(outcomes);
    ErrorsAreCounted(outcomes);
    KindsShow(outcomes);
    CountIsPlaces(kinds, RejectedRow);
    CountIsPlaces(kinds, RepeatedRow);
    CountIsPlaces(kinds, ReviewedRow);
    CountIsPlaces(kinds, AcceptedRow);
  }

  /** The error rows stand for the rejected and the repeated rows, in order. */
  ghost predicate ErrorsFor(outcomes: seq<Outcome>, kinds: seq<RowKind>, errors: seq<ErrorRow>, at: seq<nat>)
    requires |kinds| == |outcomes|
  {
    && |at| == |errors| && Ascending(at)
    && (forall k :: 0 <= k < |at| ==>
          at[k] < |kinds| && Complaints(kinds[at[k]], outcomes[at[k]].rowNumber) == [errors[k]])
    && (forall i :: 0 <= i < |kinds| && kinds[i] in {RejectedRow, RepeatedRow} ==> i in at)
  }

  lemma {:induction false} ErrorsAreComplaints(outcomes: seq<Outcome>) returns (at: seq<nat>)
    ensures ErrorsFor(outcomes, Kinds(outcomes), ErrorsOf(outcomes), at)
  {
    if outcomes == [] {
      at := [];
    } else {
      var most, last := outcomes[..|outcomes| - 1], outcomes[|outcomes| - 1];
      assert outcomes == most + [last];
      var places := ErrorsAreComplaints(most);
      OneMoreRow(most, last);
      at := OneMoreComplaint(most, last, Kinds(most), KindOf(KeysSeen(most), last), ErrorsOf(most), places);
    }
  }

  lemma OneMoreComplaint(most: seq<Outcome>, last: Outcome, kinds: seq<RowKind>, kind: RowKind, errors: seq<ErrorRow>,
                         at: seq<nat>)
    returns (all: seq<nat>)
    requires |kinds| == |most| && ErrorsFor(most, kinds, errors, at)
    ensures ErrorsFor(most + [last], kinds + [kind], errors + Complaints(kind, last.rowNumber), all)
  {
    if kind in {RejectedRow, RepeatedRow} {
      all := at + [|most|];
      AscendingSnoc(at, |most|);
    } else {
      all := at;
    }
  }

  lemma ErrorsComplain(outcomes: seq<Outcome>) returns (at: seq<nat>)
    ensures Complains(outcomes, ErrorsOf(outcomes), at)
  {
    at := ErrorsAreComplaints(outcomes);
    var kinds := Kinds(outcomes);
    forall i | 0 <= i < |outcomes| ensures KindShows(outcomes, i, kinds[i]) {
      KindAt(outcomes, i);
    }
  }

  lemma TakingKeepsDevices(devices: seq<Device>, o: Outcome, source: string, now: int)
    ensures var after := Taken(devices, o, source, now);
            && |devices| <= |after|
            && (forall r, i :: 0 <= i < |devices| && IsAbout(r, devices[i]) ==> IsAbout(r, after[i]))
            && (o.Valid? ==>
                  var i := FindByIdentity(devices, RowIdentity(o.row)); i < |after| && IsAbout(o.row, after[i]))
  {
    if o.Valid? {
      var i := FindByIdentity(devices, RowIdentity(o.row));
      var d := Taken(devices, o, source, now)[i];
      IdentitiesAgreeIff(o.row.serial, o.row.hostname, o.row.site, d.serial, d.hostname, d.site);
    }
  }

  lemma {:induction false} RowsAreObserved(devices: seq<Device>, outcomes: seq<Outcome>, source: string, now: int)
    returns (at: seq<nat>)
    ensures Observes(outcomes, UpsertedAll(devices, outcomes, source, now),
                     ObservedAll(devices, outcomes, source, now), at)
  {
    if outcomes == [] {
      at := [];
    } else {
      var most, last := outcomes[..|outcomes| - 1], outcomes[|outcomes| - 1];
      assert outcomes == most + [last];
      at := RowsAreObserved(devices, most, source, now);
      UpsertOneMore(devices, most, last, source, now);
      at := OneMoreObserved(most, last, UpsertedAll(devices, most, source, now),
                            ObservedAll(devices, most, source, now), at, source, now);
    }
  }

  lemma OneMoreObserved(most: seq<Outcome>, last: Outcome, devices: seq<Device>, tail: seq<Observation>, at: seq<nat>,
                        source: string, now: int)
    returns (all: seq<nat>)
    requires Observes(most, devices, tail, at)
    ensures Observes(most + [last], Taken(devices, last, source, now), tail + Observed(devices, last), all)
  {
    TakingKeepsDevices(devices, last, source, now);
    var after := Taken(devices, last, source, now);
    forall k | 0 <= k < |at| ensures ObservedAt(most + [last], after, at[k], tail[k]) && at[k] < |most| {
      assert ObservedAt(most, devices, at[k], tail[k]);
    }
    if last.Valid? {
      all := at + [|most|];
      AscendingSnoc(at, |most|);
    } else {
      all := at;
    }
  }
}
