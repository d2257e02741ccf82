/** Reconciling the inventory records of NetBox with the device table. */
module NetboxReconcile {
  import opened Prelude
  import opened Devices

  datatype Record = Record(id: nat, name: string, serial: Option<string>, site: string, role: Option<string>,
                           vendorRaw: string, modelRaw: string, tags: seq<string>)

  datatype SyncError =
    | DuplicateSerials
    | DuplicateNetboxId(id: nat)
    | SameDeviceTwice(device: nat, id: nat)
    | IdentityTaken(device: nat, id: nat)

  datatype Report = Report(matched: nat, created: nat, updated: nat, orphans: seq<nat>)

  function RecordIdentity(r: Record): Identity {
    IdentityOf(r.serial, r.name, r.site)
  }

  // ---- the pass ------------------------------------------------------------

  ghost predicate NetboxIdsUnique(devices: seq<Device>) {
    forall i, j :: 0 <= i < j < |devices| && devices[i].netboxId.Some? ==> devices[i].netboxId != devices[j].netboxId
  }

  function FindByNetboxId(devices: seq<Device>, id: nat): (i: nat)
    ensures i <= |devices|
    ensures i < |devices| ==> devices[i].netboxId == Some(id)
    ensures forall j :: 0 <= j < i ==> devices[j].netboxId != Some(id)
  {
    if devices == [] then 0
    else if devices[0].netboxId == Some(id) then 0
    else
      var i := FindByNetboxId(devices[1..], id);
      assert forall j :: 1 <= j < i + 1 ==> devices[j] == devices[1..][j - 1];
      i + 1
  }

  /** The link to NetBox comes first, the identity second. */
  function FindDevice(devices: seq<Device>, r: Record): (i: nat)
    ensures i <= |devices|
  {
    var linked := FindByNetboxId(devices, r.id);
    if linked < |devices| then linked else FindByIdentity(devices, RecordIdentity(r))
  }

  function NewDevice(r: Record, now: int): Device {
    Device(r.serial, r.name, r.site, Facts(None, None, None, None, None, None, None), r.vendorRaw, r.modelRaw,
           None, None, None, None, None, None, "netbox", "imported", now)
  }

  function Applied(d: Device, r: Record, now: int): Device {
    d.(hostname := r.name, site := r.site, serial := r.serial, facts := d.facts.(role := r.role),
       vendorRaw := r.vendorRaw, modelRaw := r.modelRaw, tags := Some(r.tags), netboxId := Some(r.id),
       netboxSyncedAt := Some(now), source := "netbox", updatedAt := now)
  }

  /** Would the unique index refuse this identity for the device at `i`? */
  predicate Clashes(devices: seq<Device>, i: nat, ident: Identity) {
    exists j :: 0 <= j < |devices| && j != i && IdentityIn(devices[j]) == ident
  }

  /** The state of the loop: the table, the slot of every record so far, and how many were new. */
  datatype Pass = Pass(devices: seq<Device>, slots: seq<nat>, created: nat)

  predicate Claimed(records: seq<Record>, id: nat) {
    exists k :: 0 <= k < |records| && records[k].id == id
  }

  function Placed(devices: seq<Device>, i: nat, r: Record, now: int): seq<Device>
    requires i <= |devices|
  {
    if i < |devices| then devices[i := Applied(devices[i], r, now)] else devices + [Applied(NewDevice(r, now), r, now)]
  }

  function Match(p: Pass, done: seq<Record>, r: Record, now: int): Result<Pass, SyncError> {
    var i := FindDevice(p.devices, r);
    if Claimed(done, r.id) then Err(DuplicateNetboxId(r.id))
    else if i in p.slots then Err(SameDeviceTwice(i, r.id))
    else if Clashes(p.devices, i, RecordIdentity(r)) then Err(IdentityTaken(i, r.id))
    else Ok(Pass(Placed(p.devices, i, r, now), p.slots + [i], p.created + (if i < |p.devices| then 0 else 1)))
  }

  ghost function MatchAll(devices: seq<Device>, records: seq<Record>, now: int): Result<Pass, SyncError> {
    if records == [] then Ok(Pass(devices, [], 0))
    else
      var most := records[..|records| - 1];
      match MatchAll(devices, most, now)
      case Err(e) => Err(e)
      case Ok(p) => Match(p, most, records[|records| - 1], now)
  }

  predicate SameSerial(a: Record, b: Record) {
    && a.serial.Some? && b.serial.Some? && a.serial.value != "" && b.serial.value != ""
    && Lower(a.serial.value) == Lower(b.serial.value)
  }

  ghost predicate RepeatedSerial(records: seq<Record>) {
    exists i, j :: 0 <= i < j < |records| && SameSerial(records[i], records[j])
  }

  ghost function Reconciled(devices: seq<Device>, records: seq<Record>, now: int): Result<Pass, SyncError> {
    if RepeatedSerial(records) then Err(DuplicateSerials) else MatchAll(devices, records, now)
  }

  // ---- where a record belongs ----------------------------------------------

  ghost predicate SameRecordIdentity(a: Record, b: Record) {
    SameIdentity(a.serial, a.name, a.site, b.serial, b.name, b.site)
  }

  /** The device has the identity of the record. */
  ghost predicate Identifies(r: Record, d: Device) {
    SameIdentity(r.serial, r.name, r.site, d.serial, d.hostname, d.site)
  }

  /** A known device that no earlier record took. */
  predicate Free(start: seq<Device>, taken: seq<nat>, i: int) {
    0 <= i < |start| && i !in taken
  }

  ghost predicate LinkFree(start: seq<Device>, taken: seq<nat>, r: Record, i: int) {
    Free(start, taken, i) && start[i].netboxId == Some(r.id)
  }

  ghost predicate IdentityFree(start: seq<Device>, taken: seq<nat>, r: Record, i: int) {
    Free(start, taken, i) && Identifies(r, start[i])
  }

  /**
   A record goes to the free device that carries its NetBox id; if there is none, to the free device
   with its identity; and if there is none of those either, to the first place behind the table.
  */
  ghost predicate Goes(start: seq<Device>, taken: seq<nat>, r: Record, i: nat) {
    if exists j :: LinkFree(start, taken, r, j) then LinkFree(start, taken, r, i)
    else if exists j :: IdentityFree(start, taken, r, j) then IdentityFree(start, taken, r, i)
    else |start| <= i && i !in taken && forall j :: |start| <= j < i ==> j in taken
  }

  /** No other free device has the identity of the record. */
  ghost predicate Undisputed(start: seq<Device>, taken: seq<nat>, r: Record, i: nat) {
    forall j :: IdentityFree(start, taken, r, j) ==> j == i
  }

  /** Nor does an earlier record have its id or its identity. */
  ghost predicate Fresh(done: seq<Record>, r: Record) {
    forall k :: 0 <= k < |done| ==> done[k].id != r.id && !SameRecordIdentity(done[k], r)
  }

  /** Every record has its place: it goes there, undisputed, and is no repetition of an earlier one. */
  ghost predicate Placement(start: seq<Device>, records: seq<Record>, slots: seq<nat>) {
    && |slots| == |records|
    && forall k :: 0 <= k < |records| ==> Settles(start, records[..k], slots[..k], records[k], slots[k])
  }

  ghost predicate Settles(start: seq<Device>, done: seq<Record>, taken: seq<nat>, r: Record, i: nat) {
    Fresh(done, r) && Goes(start, taken, r, i) && Undisputed(start, taken, r, i)
  }

  /**
   Why a record has no place: its id repeats; or the device that it means, not finding a link of its
   own, is an earlier record's already; or its link leads to one device and its identity to another,
   or to an earlier record.
  */
  ghost predicate Blocks(start: seq<Device>, done: seq<Record>, taken: seq<nat>, r: Record, e: SyncError)
    requires |taken| == |done|
  {
    match e
    case DuplicateSerials => false
    case DuplicateNetboxId(id) => id == r.id && exists k :: 0 <= k < |done| && done[k].id == id
    case SameDeviceTwice(i, id) =>
      && id == r.id && (forall k :: 0 <= k < |done| ==> done[k].id != id)
      && (forall j :: !LinkFree(start, taken, r, j))
      && exists k :: 0 <= k < |done| && taken[k] == i && SameRecordIdentity(done[k], r)
    case IdentityTaken(i, id) =>
      && id == r.id && (forall k :: 0 <= k < |done| ==> done[k].id != id) && LinkFree(start, taken, r, i)
      && ((exists j :: j != i && IdentityFree(start, taken, r, j)) ||
          exists k :: 0 <= k < |done| && SameRecordIdentity(done[k], r))
  }

  ghost predicate BlocksAt(start: seq<Device>, records: seq<Record>, slots: seq<nat>, k: int, e: SyncError) {
    0 <= k < |records| && |slots| == k && Placement(start, records[..k], slots) &&
    Blocks(start, records[..k], slots, records[k], e)
  }

  /** Two records share a serial number; or all records before some one have their places, and that one has none. */
  ghost predicate Refused(start: seq<Device>, records: seq<Record>, e: SyncError) {
    if RepeatedSerial(records) then e == DuplicateSerials
    else exists k, slots :: BlocksAt(start, records, slots, k, e)
  }

  // ---- the controller ------------------------------------------------------

  class SyncController {
    var devices: seq<Device>

    constructor ()
      ensures devices == []
    {
      devices := [];
    }

    method CheckSerialDuplicates(records: seq<Record>) returns (repeated: bool)
      ensures repeated <==> RepeatedSerial(records)
    {
      var seen: set<string> := {};
      for i := 0 to |records|
        invariant forall s :: s in seen <==>
                  exists k :: 0 <= k < i && records[k].serial.Some? && records[k].serial.value != "" &&
                    Lower(records[k].serial.value) == s
        invariant forall j, k :: 0 <= j < k < i ==> !SameSerial(records[j], records[k])
      {
        var r := records[i];
        if r.serial.Some? && r.serial.value != "" {
          if Lower(r.serial.value) in seen {
            return true;
          }
          seen := seen + {Lower(r.serial.value)};
        }
      }
      return false;
    }

    /** Matches one record and writes its fields, or says why it cannot be matched. */
    method MatchRecord(r: Record, done: seq<Record>, slots: seq<nat>, created: nat, now: int)
      returns (out: Result<Pass, SyncError>)
      modifies this
      ensures out == Match(Pass(old(devices), slots, created), done, r, now)
      ensures out.Ok? ==> devices == out.value.devices
    {
      if Claimed(done, r.id) {
        return Err(DuplicateNetboxId(r.id));
      }
      var i := FindDevice(devices, r);
      if i in slots {
        return Err(SameDeviceTwice(i, r.id));
      }
      if Clashes(devices, i, RecordIdentity(r)) {
        return Err(IdentityTaken(i, r.id));
      }
      if i < |devices| {
        devices := devices[i := Applied(devices[i], r, now)];
        return Ok(Pass(devices, slots + [i], created));
      }
      devices := devices + [Applied(NewDevice(r, now), r, now)];
      return Ok(Pass(devices, slots + [i], created + 1));
    }

    method Orphans(matched: set<nat>) returns (orphans: seq<nat>)
      requires forall i :: i in matched ==> i < |devices|
      ensures |orphans| + |matched| == |devices|
      ensures forall i :: i in orphans <==> 0 <= i < |devices| && i !in matched
    {
      orphans := [];
      for i := 0 to |devices|
        invariant forall k :: k in orphans <==> 0 <= k < i && k !in matched
        invariant |orphans| + |Below(matched, i)| == i
      {
        if i in matched {
          assert Below(matched, i + 1) == Below(matched, i) + {i};
        } else {
          assert Below(matched, i + 1) == Below(matched, i);
          orphans := orphans + [i];
        }
      }
      assert Below(matched, |devices|) == matched;
    }

    /** The loop over the records; it stops at the first one that cannot be matched. */
    method MatchRecords(records: seq<Record>, now: int) returns (out: Result<Pass, SyncError>)
      modifies this
      ensures out == MatchAll(old(devices), records, now)
      ensures out.Ok? ==> devices == out.value.devices
    {
      ghost var start := devices;
      var done: seq<Record> := [];
      var slots: seq<nat> := [];
      var created := 0;
      for i := 0 to |records|
        invariant |done| == i && done <= records
        invariant MatchAll(start, done, now) == Ok(Pass(devices, slots, created))
      {
        MatchOneMore(start, done, records[i], now);
        var step := MatchRecord(records[i], done, slots, created, now);
        if step.Err? {
          ErrorsStay(start, done + [records[i]], records, now);
          return Err(step.error);
        }
        done, slots, created := done + [records[i]], step.value.slots, step.value.created;
      }
      assert done == records;
      out := Ok(Pass(devices, slots, created));
    }

    /**
     One reconciliation. It goes through exactly when every record has a place, and rolls the table
     back if not. The devices then carry their records, the new ones nothing else but the state
     "imported"; and whoever has no record is as before.
    */
    method Reconcile(records: seq<Record>, now: int) returns (r: Result<Report, SyncError>)
      requires UniqueIdentities(devices) && NetboxIdsUnique(devices)
      modifies this
      ensures r.Ok? <==> exists slots :: Placement(old(devices), records, slots)
      ensures r.Err? ==> Refused(old(devices), records, r.error) && devices == old(devices)
      ensures r.Ok? ==>
                exists slots :: Placement(old(devices), records, slots) &&
                  Linked(old(devices), records, slots, devices, r.value.orphans, now)
      ensures r.Ok? ==> Reconciled(old(devices), records, now).Ok?
      ensures r.Ok? ==> devices == Reconciled(old(devices), records, now).value.devices
      ensures r.Ok? ==> r.value.matched == r.value.created + r.value.updated == |records|
      ensures r.Ok? ==> r.value.matched + |r.value.orphans| == |devices|
      ensures r.Ok? ==> r.value.created == |devices| - |old(devices)|
    {
      var start := devices;
      ReconciledIffPlacement(start, records, now);
      var repeated := CheckSerialDuplicates(records);
      RefusalIsJustified(start, records, now);
      if repeated {
        return Err(DuplicateSerials);
      }
      var out := MatchRecords(records, now);
      if out.Err? {
        devices := start;
        return Err(out.error);
      }
      PassCounts(start, records, now);
      var orphans := Unmatched(out.value.slots);
      r := Ok(Report(|out.value.slots|, out.value.created, |records| - out.value.created, orphans));
      PassLinks(start, records, out.value, orphans, now);
    }

    /** The devices that no record was matched with. */
    method Unmatched(slots: seq<nat>) returns (orphans: seq<nat>)
      requires Distinct(slots) && forall k :: 0 <= k < |slots| ==> slots[k] < |devices|
      ensures |slots| + |orphans| == |devices|
      ensures forall i :: i in orphans <==> 0 <= i < |devices| && i !in slots
    {
      var matched := set i | 0 <= i < |slots| :: slots[i];
      SlotsAreCounted(slots, matched);
      orphans := Orphans(matched);
    }
  }

  ghost function Below(s: set<nat>, n: nat): set<nat> {
    set x | x in s && x < n
  }

  lemma {:induction false} MatchOneMore(devices: seq<Device>, done: seq<Record>, r: Record, now: int)
    ensures MatchAll(devices, done + [r], now) ==
            match MatchAll(devices, done, now) case Err(e) => Err(e) case Ok(p) => Match(p, done, r, now)
  {
    var all := done + [r];
    assert all[..|all| - 1] == done && all[|done|] == r;
  }

  lemma {:induction false} ErrorsStay(devices: seq<Device>, done: seq<Record>, records: seq<Record>, now: int)
    requires done <= records && MatchAll(devices, done, now).Err?
    ensures MatchAll(devices, records, now) == MatchAll(devices, done, now)
    decreases |records|
  {
    if |done| == |records| {
      assert done == records;
    } else {
      var most := records[..|records| - 1];
      assert done <= most;
      ErrorsStay(devices, done, most, now);
    }
  }

  // ---- what a successful pass achieves -------------------------------------

  /** The device shows every field of its record. */
  ghost predicate Carries(d: Device, r: Record, now: int) {
    && d.hostname == r.name && d.site == r.site && d.serial == r.serial && d.facts.role == r.role
    && d.vendorRaw == r.vendorRaw && d.modelRaw == r.modelRaw && d.tags == Some(r.tags)
    && d.netboxId == Some(r.id) && d.source == "netbox" && d.netboxSyncedAt == Some(now) && d.updatedAt == now
  }

  /** What a record has no say in. */
  ghost predicate KeepsTheRest(before: Device, after: Device) {
    && after.lifecycle == before.lifecycle && after.vendor == before.vendor && after.model == before.model
    && after.platform == before.platform && after.facts == before.facts.(role := after.facts.role)
  }

  /** Every record has its own slot, and the device there carries its fields. */
  ghost predicate Paired(records: seq<Record>, slots: seq<nat>, devices: seq<Device>, now: int) {
    && |slots| == |records| && Distinct(slots)
    && (forall k :: 0 <= k < |slots| ==> slots[k] < |devices| && Carries(devices[slots[k]], records[k], now))
    && (forall j, k :: 0 <= j < k < |records| ==> records[j].id != records[k].id)
  }

  /** Slots are known devices or new ones; what was known is rewritten only in a slot, and only by its record. */
  ghost predicate Framed(start: seq<Device>, records: seq<Record>, p: Pass) {
    && |p.devices| == |start| + p.created && p.created <= |records|
    && (forall i :: 0 <= i < |start| ==> KeepsTheRest(start[i], p.devices[i]))
    && (forall i :: 0 <= i < |start| && i !in p.slots ==> p.devices[i] == start[i])
    && (forall i :: |start| <= i < |p.devices| ==> i in p.slots)
  }

  ghost predicate Sound(start: seq<Device>, records: seq<Record>, p: Pass, now: int) {
    && Paired(records, p.slots, p.devices, now) && Framed(start, records, p)
    && UniqueIdentities(p.devices) && NetboxIdsUnique(p.devices)
  }

  lemma PlacedKeepsUnique(devices: seq<Device>, i: nat, r: Record, now: int)
    requires UniqueIdentities(devices) && NetboxIdsUnique(devices)
    requires i == FindDevice(devices, r) && !Clashes(devices, i, RecordIdentity(r))
    ensures UniqueIdentities(Placed(devices, i, r, now)) && NetboxIdsUnique(Placed(devices, i, r, now))
  {
    var after := Placed(devices, i, r, now);
    assert IdentityIn(after[i]) == RecordIdentity(r) && after[i].netboxId == Some(r.id);
    forall j | 0 <= j < |devices| && j != i
      ensures IdentityIn(devices[j]) != RecordIdentity(r) && devices[j].netboxId != Some(r.id)
    {
      var linked := FindByNetboxId(devices, r.id);
      assert linked < j && linked < |devices| ==> devices[linked].netboxId != devices[j].netboxId;
    }
  }

  lemma MatchKeepsPaired(done: seq<Record>, p: Pass, r: Record, now: int)
    requires Paired(done, p.slots, p.devices, now) && Match(p, done, r, now).Ok?
    ensures var q := Match(p, done, r, now).value; Paired(done + [r], q.slots, q.devices, now)
  {
    var i := FindDevice(p.devices, r);
    var q := Match(p, done, r, now).value;
    assert Carries(q.devices[i], r, now);
    forall k | 0 <= k < |p.slots| ensures q.devices[q.slots[k]] == p.devices[p.slots[k]] {
      assert p.slots[k] in p.slots;
    }
    forall k | 0 <= k < |done| ensures done[k].id != r.id {
    }
  }

  lemma MatchKeepsFramed(start: seq<Device>, done: seq<Record>, p: Pass, r: Record, now: int)
    requires Framed(start, done, p) && Match(p, done, r, now).Ok?
    ensures Framed(start, done + [r], Match(p, done, r, now).value)
  {
    var i := FindDevice(p.devices, r);
    var q := Match(p, done, r, now).value;
    assert q.slots[|p.slots|] == i;
    assert forall x :: x in q.slots <==> x in p.slots || x == i;
  }

  lemma MatchKeepsSound(start: seq<Device>, done: seq<Record>, p: Pass, r: Record, now: int)
    requires Sound(start, done, p, now) && Match(p, done, r, now).Ok?
    ensures Sound(start, done + [r], Match(p, done, r, now).value, now)
  {
    PlacedKeepsUnique(p.devices, FindDevice(p.devices, r), r, now);
    MatchKeepsPaired(done, p, r, now);
    MatchKeepsFramed(start, done, p, r, now);
  }

  /**
   A successful reconciliation pairs records and devices one to one: every record has its own
   device, which carries its fields; devices without a record are untouched; identities and NetBox
   links stay unique; and nothing but the record's own fields changes on a known device.
  */
  lemma {:induction false} PassIsSound(start: seq<Device>, records: seq<Record>, now: int)
    requires UniqueIdentities(start) && NetboxIdsUnique(start) && MatchAll(start, records, now).Ok?
    ensures Sound(start, records, MatchAll(start, records, now).value, now)
  {
    if records == [] {
    } else {
      var most, last := records[..|records| - 1], records[|records| - 1];
      assert records == most + [last];
      MatchOneMore(start, most, last, now);
      PassIsSound(start, most, now);
      MatchKeepsSound(start, most, MatchAll(start, most, now).value, last, now);
    }
  }

  // ---- when a pass succeeds ------------------------------------------------

  lemma SameIdentityIff(r: Record, d: Device)
    ensures Identifies(r, d) <==> IdentityIn(d) == RecordIdentity(r)
  {
    IdentitiesAgreeIff(r.serial, r.name, r.site, d.serial, d.hostname, d.site);
  }

  lemma SameRecordIff(a: Record, b: Record)
    ensures SameRecordIdentity(a, b) <==> RecordIdentity(a) == RecordIdentity(b)
  {
    IdentitiesAgreeIff(a.serial, a.name, a.site, b.serial, b.name, b.site);
  }

  /** A device that a record already took shows that record; another one is as it was. */
  lemma TakenOrAsBefore(start: seq<Device>, done: seq<Record>, p: Pass, now: int, i: nat)
    requires Sound(start, done, p, now) && i < |p.devices|
    ensures i in p.slots ==>
              exists k :: 0 <= k < |done| && p.slots[k] == i &&
                p.devices[i].netboxId == Some(done[k].id) && IdentityIn(p.devices[i]) == RecordIdentity(done[k])
    ensures i !in p.slots ==> i < |start| && p.devices[i] == start[i]
  {
    if i in p.slots {
      var k :| 0 <= k < |p.slots| && p.slots[k] == i;
      assert Carries(p.devices[p.slots[k]], done[k], now);
    }
  }

  /** For a fresh record the table shows its id, and its identity, only where the devices are still free. */
  lemma FreshSeesFreeDevices(start: seq<Device>, done: seq<Record>, p: Pass, r: Record, now: int, i: nat)
    requires Sound(start, done, p, now) && Fresh(done, r) && i < |p.devices|
    ensures p.devices[i].netboxId == Some(r.id) <==> LinkFree(start, p.slots, r, i)
    ensures IdentityIn(p.devices[i]) == RecordIdentity(r) <==> IdentityFree(start, p.slots, r, i)
  {
    TakenOrAsBefore(start, done, p, now, i);
    if i in p.slots {
      var k :| 0 <= k < |done| && p.slots[k] == i &&
               p.devices[i].netboxId == Some(done[k].id) && IdentityIn(p.devices[i]) == RecordIdentity(done[k]);
      SameRecordIff(done[k], r);
    } else {
      SameIdentityIff(r, start[i]);
    }
  }

  /** So a fresh record is found at its place, and refused exactly if another free device disputes it. */
  lemma FreshIsFound(start: seq<Device>, done: seq<Record>, p: Pass, r: Record, now: int)
    requires Sound(start, done, p, now) && Fresh(done, r)
    ensures var i := FindDevice(p.devices, r);
            && Goes(start, p.slots, r, i) && i !in p.slots
            && (Clashes(p.devices, i, RecordIdentity(r)) <==> !Undisputed(start, p.slots, r, i))
  {
    forall j | 0 <= j < |p.devices|
      ensures p.devices[j].netboxId == Some(r.id) <==> LinkFree(start, p.slots, r, j)
      ensures IdentityIn(p.devices[j]) == RecordIdentity(r) <==> IdentityFree(start, p.slots, r, j)
    {
      FreshSeesFreeDevices(start, done, p, r, now, j);
    }
    var i := FindDevice(p.devices, r);
    if i == |p.devices| {
      forall j | |start| <= j < i ensures j in p.slots {
      }
    }
  }

  /** What the table shows of an id or identity that an earlier record has is that record's device. */
  lemma RepetitionIsSeen(start: seq<Device>, done: seq<Record>, p: Pass, r: Record, now: int, k: nat)
    requires Sound(start, done, p, now) && k < |done| && !Claimed(done, r.id) && SameRecordIdentity(done[k], r)
    ensures p.slots[k] in p.slots && FindByIdentity(p.devices, RecordIdentity(r)) == p.slots[k]
    ensures forall i :: 0 <= i < |p.devices| ==>
              (p.devices[i].netboxId == Some(r.id) <==> LinkFree(start, p.slots, r, i))
  {
    SameRecordIff(done[k], r);
    assert Carries(p.devices[p.slots[k]], done[k], now);
    FindIsTheDevice(p.devices, p.slots[k]);
    forall i | 0 <= i < |p.devices| ensures p.devices[i].netboxId == Some(r.id) <==> LinkFree(start, p.slots, r, i) {
      TakenOrAsBefore(start, done, p, now, i);
    }
  }

  lemma RepetitionIsRefused(start: seq<Device>, done: seq<Record>, p: Pass, r: Record, now: int, k: nat)
    requires Sound(start, done, p, now) && k < |done| && !Claimed(done, r.id) && SameRecordIdentity(done[k], r)
    ensures Match(p, done, r, now).Err?
  {
    RepetitionIsSeen(start, done, p, r, now, k);
    var i, j := FindDevice(p.devices, r), p.slots[k];
    if i != j {
      assert Clashes(p.devices, i, RecordIdentity(r)) by {
        assert 0 <= j < |p.devices| && j != i && IdentityIn(p.devices[j]) == RecordIdentity(r);
      }
    }
  }

  /** A record that repeats an earlier one is refused. */
  lemma RepeatedIsRefused(start: seq<Device>, done: seq<Record>, p: Pass, r: Record, now: int)
    requires Sound(start, done, p, now) && !Fresh(done, r)
    ensures Match(p, done, r, now).Err?
  {
    if !Claimed(done, r.id) {
      var k :| 0 <= k < |done| && SameRecordIdentity(done[k], r);
      RepetitionIsRefused(start, done, p, r, now, k);
    }
  }

  /** There is one place for a record at most. */
  lemma OnePlace(start: seq<Device>, taken: seq<nat>, r: Record, i: nat, j: nat)
    requires UniqueIdentities(start) && NetboxIdsUnique(start)
    requires Goes(start, taken, r, i) && Goes(start, taken, r, j)
    ensures i == j
  {
    if LinkFree(start, taken, r, i) && LinkFree(start, taken, r, j) {
      OnlyOneLinked(start, i, j);
    } else if IdentityFree(start, taken, r, i) && IdentityFree(start, taken, r, j) {
      SameIdentityIff(r, start[i]);
      SameIdentityIff(r, start[j]);
    }
  }

  lemma MatchIffSettles(start: seq<Device>, done: seq<Record>, p: Pass, r: Record, now: int, i: nat)
    requires UniqueIdentities(start) && NetboxIdsUnique(start) && Sound(start, done, p, now)
    ensures Match(p, done, r, now).Ok? && FindDevice(p.devices, r) == i <==> Settles(start, done, p.slots, r, i)
  {
    if Fresh(done, r) {
      FreshIsFound(start, done, p, r, now);
      if Goes(start, p.slots, r, i) {
        OnePlace(start, p.slots, r, i, FindDevice(p.devices, r));
      }
    } else {
      RepeatedIsRefused(start, done, p, r, now);
    }
  }

  lemma PlacementSnoc(start: seq<Device>, most: seq<Record>, r: Record, slots: seq<nat>, i: nat)
    ensures Placement(start, most + [r], slots + [i]) <==>
            |slots| == |most| && Placement(start, most, slots) && Settles(start, most, slots, r, i)
  {
    if |slots| == |most| {
      var records, all := most + [r], slots + [i];
      assert records[..|most|] == most && all[..|most|] == slots;
      forall k | 0 <= k < |most|
        ensures records[..k] == most[..k] && all[..k] == slots[..k] && records[k] == most[k] && all[k] == slots[k]
      {
      }
    }
  }

  /** The pass goes through exactly when there is a placement, and the slots are that placement. */
  lemma {:induction false} MatchAllIffPlacement(start: seq<Device>, records: seq<Record>, now: int, slots: seq<nat>)
    requires UniqueIdentities(start) && NetboxIdsUnique(start)
    ensures MatchAll(start, records, now).Ok? && MatchAll(start, records, now).value.slots == slots <==>
            Placement(start, records, slots)
  {
    if records == [] {
    } else if |slots| == |records| {
      var most, r := records[..|records| - 1], records[|records| - 1];
      var taken, i := slots[..|slots| - 1], slots[|slots| - 1];
      assert records == most + [r] && slots == taken + [i];
      MatchAllIffPlacement(start, most, now, taken);
      PlacementSnoc(start, most, r, taken, i);
      LastMatchIffSettles(start, most, r, taken, i, now);
    } else if MatchAll(start, records, now).Ok? {
      PassIsSound(start, records, now);
    }
  }

  lemma LastMatchIffSettles(start: seq<Device>, most: seq<Record>, r: Record, taken: seq<nat>, i: nat, now: int)
    requires UniqueIdentities(start) && NetboxIdsUnique(start)
    ensures var before, after := MatchAll(start, most, now), MatchAll(start, most + [r], now);
            after.Ok? && after.value.slots == taken + [i] <==>
            before.Ok? && before.value.slots == taken && Settles(start, most, taken, r, i)
  {
    MatchOneMore(start, most, r, now);
    var before := MatchAll(start, most, now);
    if before.Ok? {
      PassIsSound(start, most, now);
      MatchIffSettles(start, most, before.value, r, now, i);
      SlotsSplit(before.value.slots, FindDevice(before.value.devices, r), taken, i);
    }
  }

  lemma SlotsSplit(a: seq<nat>, i: nat, b: seq<nat>, j: nat)
    ensures a + [i] == b + [j] <==> a == b && i == j
  {
    if a + [i] == b + [j] {
      assert (a + [i])[..|a|] == a && (b + [j])[..|b|] == b;
      assert (a + [i])[|a|] == i && (b + [j])[|b|] == j;
    }
  }

  /** No two records that have their place share an id or an identity. */
  lemma PlacedRecordsDiffer(start: seq<Device>, records: seq<Record>, slots: seq<nat>)
    requires Placement(start, records, slots)
    ensures RecordsDiffer(records)
  {
    forall i, j | 0 <= i < j < |records|
      ensures records[i].id != records[j].id && !SameRecordIdentity(records[i], records[j])
    {
      assert Settles(start, records[..j], slots[..j], records[j], slots[j]);
      assert records[..j][i] == records[i];
    }
  }

  lemma RepeatedSerialIsRefused(start: seq<Device>, records: seq<Record>, slots: seq<nat>)
    requires RepeatedSerial(records)
    ensures !Placement(start, records, slots)
  {
    var i, j :| 0 <= i < j < |records| && SameSerial(records[i], records[j]);
    assert SameRecordIdentity(records[i], records[j]);
    if Placement(start, records, slots) {
      PlacedRecordsDiffer(start, records, slots);
    }
  }

  /** A reconciliation succeeds exactly when every record has its place in the table as it was at the start. */
  lemma ReconciledIffPlacement(start: seq<Device>, records: seq<Record>, now: int)
    requires UniqueIdentities(start) && NetboxIdsUnique(start)
    ensures Reconciled(start, records, now).Ok? <==> exists slots :: Placement(start, records, slots)
    ensures Reconciled(start, records, now).Ok? ==>
              Placement(start, records, Reconciled(start, records, now).value.slots)
  {
    if slots :| Placement(start, records, slots) {
      MatchAllIffPlacement(start, records, now, slots);
      if RepeatedSerial(records) {
        RepeatedSerialIsRefused(start, records, slots);
      }
    }
    if Reconciled(start, records, now).Ok? {
      MatchAllIffPlacement(start, records, now, MatchAll(start, records, now).value.slots);
    }
  }

  lemma RefusedRecordIsBlocked(start: seq<Device>, done: seq<Record>, p: Pass, r: Record, now: int)
    requires UniqueIdentities(start) && NetboxIdsUnique(start)
    requires Sound(start, done, p, now) && Match(p, done, r, now).Err?
    ensures Blocks(start, done, p.slots, r, Match(p, done, r, now).error)
  {
    if Claimed(done, r.id) {
    } else if Fresh(done, r) {
      FreshIsFound(start, done, p, r, now);
      DisputedThroughLink(start, p.slots, r, FindDevice(p.devices, r));
    } else {
      var k :| 0 <= k < |done| && SameRecordIdentity(done[k], r);
      RepetitionIsBlocked(start, done, p, r, now, k);
    }
  }

  lemma RepetitionIsBlocked(start: seq<Device>, done: seq<Record>, p: Pass, r: Record, now: int, k: nat)
    requires UniqueIdentities(start) && NetboxIdsUnique(start) && Sound(start, done, p, now)
    requires Match(p, done, r, now).Err? && !Claimed(done, r.id) && k < |done| && SameRecordIdentity(done[k], r)
    ensures Blocks(start, done, p.slots, r, Match(p, done, r, now).error)
  {
    RepetitionIsSeen(start, done, p, r, now, k);
    var i := FindDevice(p.devices, r);
    if i == p.slots[k] {
      assert i in p.slots && Match(p, done, r, now).error == SameDeviceTwice(i, r.id);
    } else {
      assert LinkFree(start, p.slots, r, i) && Match(p, done, r, now).error == IdentityTaken(i, r.id);
    }
  }

  /** A place is disputed only where a link leads. */
  lemma DisputedThroughLink(start: seq<Device>, taken: seq<nat>, r: Record, i: nat)
    requires UniqueIdentities(start) && Goes(start, taken, r, i) && !Undisputed(start, taken, r, i)
    ensures LinkFree(start, taken, r, i) && exists j :: j != i && IdentityFree(start, taken, r, j)
  {
    var j :| IdentityFree(start, taken, r, j) && j != i;
    if !LinkFree(start, taken, r, i) {
      SameIdentityIff(r, start[j]);
      SameIdentityIff(r, start[i]);
    }
  }

  lemma {:induction false} RefusedPassIsBlocked(start: seq<Device>, records: seq<Record>, now: int)
    requires UniqueIdentities(start) && NetboxIdsUnique(start) && MatchAll(start, records, now).Err?
    ensures exists k, slots :: BlocksAt(start, records, slots, k, MatchAll(start, records, now).error)
  {
    var most, r := records[..|records| - 1], records[|records| - 1];
    assert records == most + [r];
    MatchOneMore(start, most, r, now);
    var e := MatchAll(start, records, now).error;
    if MatchAll(start, most, now).Err? {
      RefusedPassIsBlocked(start, most, now);
      var k, slots :| BlocksAt(start, most, slots, k, e);
      assert records[..k] == most[..k] && records[k] == most[k];
      assert BlocksAt(start, records, slots, k, e);
    } else {
      var p := MatchAll(start, most, now).value;
      PassIsSound(start, most, now);
      MatchAllIffPlacement(start, most, now, p.slots);
      RefusedRecordIsBlocked(start, most, p, r, now);
      assert BlocksAt(start, records, p.slots, |most|, e);
    }
  }

  lemma RefusalIsJustified(start: seq<Device>, records: seq<Record>, now: int)
    requires UniqueIdentities(start) && NetboxIdsUnique(start)
    ensures Reconciled(start, records, now).Err? ==> Refused(start, records, Reconciled(start, records, now).error)
  {
    if !RepeatedSerial(records) && MatchAll(start, records, now).Err? {
      RefusedPassIsBlocked(start, records, now);
    }
  }

  /** A device that came from a record alone: nothing is known but the record, and its lifecycle begins. */
  ghost predicate OnlyFrom(d: Device, r: Record) {
    && d.lifecycle == "imported" && d.vendor == None && d.model == None && d.platform == None
    && d.facts == Facts(None, r.role, None, None, None, None, None)
  }

  /** The table after a reconciliation, device by device, and the devices that no record was matched with. */
  ghost predicate Linked(start: seq<Device>, records: seq<Record>, slots: seq<nat>, after: seq<Device>,
                         orphans: seq<nat>, now: int)
  {
    && |slots| == |records| && Distinct(slots) && |start| <= |after|
    && (forall k :: 0 <= k < |slots| ==>
          slots[k] < |after| && Carries(after[slots[k]], records[k], now) &&
          if slots[k] < |start| then KeepsTheRest(start[slots[k]], after[slots[k]])
          else OnlyFrom(after[slots[k]], records[k]))
    && (forall i :: 0 <= i < |start| && i !in slots ==> after[i] == start[i])
    && (forall i :: |start| <= i < |after| ==> i in slots)
    && (forall i :: i in orphans <==> 0 <= i < |after| && i !in slots)
  }

  ghost predicate NewOnes(start: seq<Device>, records: seq<Record>, p: Pass) {
    && |p.slots| == |records|
    && forall k :: 0 <= k < |p.slots| && |start| <= p.slots[k] < |p.devices| ==>
         OnlyFrom(p.devices[p.slots[k]], records[k])
  }

  lemma {:induction false} NewOnesAreBlank(start: seq<Device>, records: seq<Record>, now: int)
    requires UniqueIdentities(start) && NetboxIdsUnique(start) && MatchAll(start, records, now).Ok?
    ensures NewOnes(start, records, MatchAll(start, records, now).value)
  {
    if records == [] {
    } else {
      var most, r := records[..|records| - 1], records[|records| - 1];
      assert records == most + [r];
      MatchOneMore(start, most, r, now);
      NewOnesAreBlank(start, most, now);
      PassIsSound(start, most, now);
      OneMoreNew(start, most, MatchAll(start, most, now).value, r, now);
    }
  }

  lemma OneMoreNew(start: seq<Device>, most: seq<Record>, p: Pass, r: Record, now: int)
    requires NewOnes(start, most, p) && Sound(start, most, p, now) && Match(p, most, r, now).Ok?
    ensures NewOnes(start, most + [r], Match(p, most, r, now).value)
  {
    var i := FindDevice(p.devices, r);
    var q := Match(p, most, r, now).value;
    assert i < |start| || i == |p.devices|;
    forall k | 0 <= k < |p.slots| ensures q.devices[q.slots[k]] == p.devices[p.slots[k]] {
      assert p.slots[k] in p.slots;
    }
  }

  lemma PassLinks(start: seq<Device>, records: seq<Record>, p: Pass, orphans: seq<nat>, now: int)
    requires UniqueIdentities(start) && NetboxIdsUnique(start) && MatchAll(start, records, now) == Ok(p)
    requires forall i :: i in orphans <==> 0 <= i < |p.devices| && i !in p.slots
    ensures Placement(start, records, p.slots) && Linked(start, records, p.slots, p.devices, orphans, now)
  {
    MatchAllIffPlacement(start, records, now, p.slots);
    PassIsSound(start, records, now);
    NewOnesAreBlank(start, records, now);
  }

  // ---- the first sync ------------------------------------------------------

  /** No two records share an id or an identity. */
  ghost predicate RecordsDiffer(records: seq<Record>) {
    forall i, j :: 0 <= i < j < |records| ==>
      records[i].id != records[j].id && !SameRecordIdentity(records[i], records[j])
  }

  ghost predicate Unlinked(devices: seq<Device>) {
    forall i :: 0 <= i < |devices| ==> devices[i].netboxId == None
  }

  lemma {:induction false} DifferingRecordsAllMatch(start: seq<Device>, records: seq<Record>, now: int)
    requires UniqueIdentities(start) && Unlinked(start) && RecordsDiffer(records)
    ensures MatchAll(start, records, now).Ok?
  {
    if records == [] {
    } else {
      var most, r := records[..|records| - 1], records[|records| - 1];
      assert records == most + [r];
      DifferingRecordsAllMatch(start, most, now);
      PassIsSound(start, most, now);
      var p := MatchAll(start, most, now).value;
      FreshIsFound(start, most, p, r, now);
      NobodyDisputes(start, p.slots, r, FindDevice(p.devices, r));
      MatchOneMore(start, most, r, now);
    }
  }

  lemma NobodyDisputes(start: seq<Device>, taken: seq<nat>, r: Record, i: nat)
    requires UniqueIdentities(start) && Unlinked(start) && Goes(start, taken, r, i)
    ensures Undisputed(start, taken, r, i)
  {
    forall j | IdentityFree(start, taken, r, j) ensures j == i {
      SameIdentityIff(r, start[i]);
      SameIdentityIff(r, start[j]);
    }
  }

  /** In an unlinked table a record goes to the device with its identity, if there is one. */
  lemma KnownDeviceIsTaken(start: seq<Device>, records: seq<Record>, slots: seq<nat>, k: nat, i: nat)
    requires UniqueIdentities(start) && Unlinked(start) && Placement(start, records, slots)
    requires k < |records| && i < |start| && Identifies(records[k], start[i])
    ensures slots[k] == i
  {
    PlacedRecordsDiffer(start, records, slots);
    assert Settles(start, records[..k], slots[..k], records[k], slots[k]);
    assert i !in slots[..k] by {
      if j :| 0 <= j < k && slots[j] == i {
        assert Settles(start, records[..j], slots[..j], records[j], slots[j]);
        SameIdentityIff(records[j], start[i]);
        SameIdentityIff(records[k], start[i]);
        SameRecordIff(records[j], records[k]);
      }
    }
    assert IdentityFree(start, slots[..k], records[k], i);
    SameIdentityIff(records[k], start[i]);
  }

  /**
   The first sync of devices that carry no NetBox id yet. It goes through exactly when no two records
   share an id or an identity, and then links every device that a record identifies to that record.
  */
  lemma FirstSyncLinksEveryDevice(start: seq<Device>, records: seq<Record>, now: int)
    requires UniqueIdentities(start) && Unlinked(start)
    ensures (exists slots :: Placement(start, records, slots)) <==> RecordsDiffer(records)
    ensures forall slots :: Placement(start, records, slots) ==>
              forall k, i :: 0 <= k < |records| && 0 <= i < |start| && Identifies(records[k], start[i]) ==>
                slots[k] == i
  {
    if RecordsDiffer(records) {
      DifferingRecordsAllMatch(start, records, now);
      MatchAllIffPlacement(start, records, now, MatchAll(start, records, now).value.slots);
    }
    if slots :| Placement(start, records, slots) {
      PlacedRecordsDiffer(start, records, slots);
    }
    forall slots, k, i | Placement(start, records, slots) && 0 <= k < |records| && 0 <= i < |start| &&
                         Identifies(records[k], start[i])
      ensures slots[k] == i
    {
      KnownDeviceIsTaken(start, records, slots, k, i);
    }
  }

  lemma PassCounts(start: seq<Device>, records: seq<Record>, now: int)
    requires UniqueIdentities(start) && NetboxIdsUnique(start) && MatchAll(start, records, now).Ok?
    ensures var p := MatchAll(start, records, now).value;
            && |p.slots| == |records| && Distinct(p.slots)
            && |p.devices| == |start| + p.created && p.created <= |records|
            && forall k :: 0 <= k < |p.slots| ==> p.slots[k] < |p.devices|
  {
    PassIsSound(start, records, now);
  }

  lemma SlotsAreCounted(slots: seq<nat>, matched: set<nat>)
    requires Distinct(slots) && matched == set i | 0 <= i < |slots| :: slots[i]
    ensures |matched| == |slots|
    ensures forall x :: x in matched <==> x in slots
  {
    DistinctCardinality(slots);
    assert matched == Elements(slots);
  }

  // ---- reconciling again ---------------------------------------------------

  ghost function Retimed(d: Device, now: int): Device {
    d.(netboxSyncedAt := Some(now), updatedAt := now)
  }

  ghost function RetimedAt(devices: seq<Device>, slots: seq<nat>, now: int): (r: seq<Device>)
    ensures |r| == |devices|
    ensures forall i :: 0 <= i < |r| ==> r[i] == if i in slots then Retimed(devices[i], now) else devices[i]
  {
    seq(|devices|, i requires 0 <= i < |devices| => if i in slots then Retimed(devices[i], now) else devices[i])
  }

  lemma OnlyOneLinked(devices: seq<Device>, i: nat, j: nat)
    requires NetboxIdsUnique(devices) && i < |devices| && j < |devices|
    requires devices[i].netboxId.Some? && devices[i].netboxId == devices[j].netboxId
    ensures i == j
  {
  }

  lemma MatchAgain(devices: seq<Device>, slots: seq<nat>, done: seq<Record>, r: Record, i: nat, now: int, later: int)
    requires UniqueIdentities(devices) && NetboxIdsUnique(devices)
    requires i < |devices| && Carries(devices[i], r, now) && i !in slots && !Claimed(done, r.id)
    ensures Match(Pass(RetimedAt(devices, slots, later), slots, 0), done, r, later) ==
            Ok(Pass(RetimedAt(devices, slots + [i], later), slots + [i], 0))
  {
    var now_ := RetimedAt(devices, slots, later);
    assert forall j :: 0 <= j < |devices| ==>
             now_[j].netboxId == devices[j].netboxId && IdentityIn(now_[j]) == IdentityIn(devices[j]);
    var linked := FindByNetboxId(now_, r.id);
    assert linked <= i;
    OnlyOneLinked(devices, linked, i);
    assert IdentityIn(now_[i]) == RecordIdentity(r);
    assert !Clashes(now_, i, RecordIdentity(r));
    assert Applied(now_[i], r, later) == Retimed(devices[i], later);
    assert forall x :: x in slots + [i] <==> x in slots || x == i;
    assert now_[i := Applied(now_[i], r, later)] == RetimedAt(devices, slots + [i], later);
  }

  lemma PairedPrefix(records: seq<Record>, slots: seq<nat>, devices: seq<Device>, now: int)
    requires Paired(records, slots, devices, now) && records != []
    ensures var done, r := records[..|records| - 1], records[|records| - 1];
            var most, i := slots[..|slots| - 1], slots[|slots| - 1];
            && Paired(done, most, devices, now) && i < |devices| && Carries(devices[i], r, now)
            && i !in most && !Claimed(done, r.id)
  {
  }

  lemma {:induction false} AllMatchAgain(devices: seq<Device>, records: seq<Record>, slots: seq<nat>, now: int,
                                         later: int)
    requires Paired(records, slots, devices, now) && UniqueIdentities(devices) && NetboxIdsUnique(devices)
    ensures MatchAll(devices, records, later) == Ok(Pass(RetimedAt(devices, slots, later), slots, 0))
  {
    if records == [] {
      assert RetimedAt(devices, slots, later) == devices;
    } else {
      var done, r := records[..|records| - 1], records[|records| - 1];
      var most, i := slots[..|slots| - 1], slots[|slots| - 1];
      PairedPrefix(records, slots, devices, now);
      AllMatchAgain(devices, done, most, now, later);
      MatchAgain(devices, most, done, r, i, now, later);
      assert slots == most + [i];
    }
  }

  /**
   Reconciling the same records again succeeds, finds every record at the same device, creates
   nothing, and changes nothing but the two timestamps of the matched devices.
  */
  lemma ReconcilingAgainOnlyMovesTimestamps(start: seq<Device>, records: seq<Record>, now: int, later: int)
    requires UniqueIdentities(start) && NetboxIdsUnique(start) && Reconciled(start, records, now).Ok?
    ensures var p := Reconciled(start, records, now).value;
            Reconciled(p.devices, records, later) == Ok(Pass(RetimedAt(p.devices, p.slots, later), p.slots, 0))
  {
    var p := Reconciled(start, records, now).value;
    PassIsSound(start, records, now);
    AllMatchAgain(p.devices, records, p.slots, now, later);
  }
}
