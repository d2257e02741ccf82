/** Mirroring lifecycle facts into NetBox: fill empty fields, keep the managed tags exact, touch nothing else. */
module Writeback {
  import opened Prelude
  import opened Sorting
  import opened Prerequisites

  // ---- what the mirror should show -----------------------------------------

  datatype Source =
    | LifecycleState | ComplianceSummary | ReadinessSummary | TargetFirmware
    | ComplianceEvaluatedAt | ReadinessEvaluatedAt | IpamAlignmentStatus

  datatype ApplyWhen =
    | Always | DriftOutsideTarget | ReadinessBlocked | ReadinessReadyForUplift | IpamMismatch | NeverKnown(text: string)

  datatype FieldMapping = FieldMapping(field: string, source: Source)
  datatype TagRule = TagRule(slug: string, when: ApplyWhen)

  /** The manifest after linting: no field and no slug appears twice. */
  datatype Manifest = Manifest(fields: seq<FieldMapping>, tags: seq<TagRule>)

  datatype Snapshot = Snapshot(
    lifecycleState: string, complianceSummary: string, readinessSummary: string, targetFirmware: string,
    complianceEvaluatedAt: string, readinessEvaluatedAt: string, driftOutsideTarget: bool, readinessBlocked: bool,
    readinessReadyForUplift: bool, ipamAlignmentStatus: string, ipamMismatch: bool)

  ghost predicate Linted(m: Manifest) {
    && (forall i, j :: 0 <= i < j < |m.fields| ==> m.fields[i].field != m.fields[j].field)
    && (forall i, j :: 0 <= i < j < |m.tags| ==> m.tags[i].slug != m.tags[j].slug)
  }

  function SourceValue(s: Snapshot, source: Source): string {
    match source
    case LifecycleState => s.lifecycleState
    case ComplianceSummary => s.complianceSummary
    case ReadinessSummary => s.readinessSummary
    case TargetFirmware => s.targetFirmware
    case ComplianceEvaluatedAt => s.complianceEvaluatedAt
    case ReadinessEvaluatedAt => s.readinessEvaluatedAt
    case IpamAlignmentStatus => s.ipamAlignmentStatus
  }

  predicate TagApplies(when: ApplyWhen, s: Snapshot) {
    match when
    case Always => true
    case DriftOutsideTarget => s.driftOutsideTarget
    case ReadinessBlocked => s.readinessBlocked
    case ReadinessReadyForUplift => s.readinessReadyForUplift
    case IpamMismatch => s.ipamMismatch
    case NeverKnown(_) => false
  }

  predicate Managed(m: Manifest, slug: string) {
    exists i :: 0 <= i < |m.tags| && m.tags[i].slug == slug
  }

  predicate Desired(m: Manifest, s: Snapshot, slug: string) {
    exists i :: 0 <= i < |m.tags| && m.tags[i].slug == slug && TagApplies(m.tags[i].when, s)
  }

  function DesiredTags(rules: seq<TagRule>, s: Snapshot): seq<string> {
    if rules == [] then []
    else
      var most, last := DesiredTags(rules[..|rules| - 1], s), rules[|rules| - 1];
      if TagApplies(last.when, s) then most + [last.slug] else most
  }

  /** The tags that no rule of the manifest is about, in their order. */
  function Unmanaged(m: Manifest, slugs: seq<string>): seq<string> {
    if slugs == [] then []
    else
      var most, last := Unmanaged(m, slugs[..|slugs| - 1]), slugs[|slugs| - 1];
      if Managed(m, last) then most else most + [last]
  }

  predicate TextAtMost(a: string, b: string) {
    !TextLess(b, a)
  }

  function ReconciledTags(m: Manifest, current: seq<string>, s: Snapshot): seq<string> {
    Unmanaged(m, current) + Sort(DesiredTags(m.tags, s), TextAtMost)
  }

  // ---- one device ----------------------------------------------------------

  /** A device as NetBox shows it; an absent or null field reads as the empty text. */
  datatype NbDevice = NbDevice(fields: map<string, string>, tags: seq<string>)

  function FieldText(d: NbDevice, field: string): string {
    if field in d.fields then d.fields[field] else ""
  }

  datatype Conflict = Conflict(field: string, expected: string, actual: string)

  predicate Conflicts(d: NbDevice, f: FieldMapping, s: Snapshot) {
    FieldText(d, f.field) != "" && FieldText(d, f.field) != SourceValue(s, f.source)
  }

  predicate SomeConflict(m: Manifest, d: NbDevice, s: Snapshot) {
    exists i :: 0 <= i < |m.fields| && Conflicts(d, m.fields[i], s)
  }

  predicate FieldsMatch(m: Manifest, d: NbDevice, s: Snapshot) {
    forall i :: 0 <= i < |m.fields| ==> FieldText(d, m.fields[i].field) == SourceValue(s, m.fields[i].source)
  }

  /** The order of tags does not matter for the comparison. */
  predicate TagsMatch(m: Manifest, d: NbDevice, s: Snapshot) {
    multiset(d.tags) == multiset(ReconciledTags(m, d.tags, s))
  }

  function DesiredFields(fields: seq<FieldMapping>, s: Snapshot): map<string, string> {
    if fields == [] then map[]
    else
      var last := fields[|fields| - 1];
      DesiredFields(fields[..|fields| - 1], s)[last.field := SourceValue(s, last.source)]
  }

  datatype Patch = Patch(fields: Option<map<string, string>>, tags: Option<seq<string>>)

  function Patched(d: NbDevice, p: Patch): NbDevice {
    NbDevice(if p.fields.Some? then d.fields + p.fields.value else d.fields,
             if p.tags.Some? then p.tags.value else d.tags)
  }

  datatype Status = Updated | Skipped | AlreadyMatching | InConflict | Failed

  datatype Entry = Entry(device: nat, netboxId: nat, status: Status, conflicts: seq<Conflict>)

  /** NetBox behind its REST interface; any request may fail and then changes nothing. */
  class NetboxServer {
    var devices: map<nat, NbDevice>
    var patches: seq<(nat, Patch)>

    constructor (devices: map<nat, NbDevice>)
      ensures this.devices == devices && patches == []
    {
      this.devices, patches := devices, [];
    }

    method GetDevice(id: nat) returns (r: Option<NbDevice>)
      ensures r.Some? ==> id in devices && r.value == devices[id]
    {
      if * {
        return None;
      }
      return if id in devices then Some(devices[id]) else None;
    }

    method PatchDevice(id: nat, p: Patch) returns (ok: bool)
      requires id in devices && (p.fields.Some? || p.tags.Some?)
      modifies this
      ensures ok ==> devices == old(devices)[id := Patched(old(devices)[id], p)] && patches == old(patches) + [(id, p)]
      ensures !ok ==> devices == old(devices) && patches == old(patches)
    {
      if * {
        return false;
      }
      devices := devices[id := Patched(devices[id], p)];
      patches := patches + [(id, p)];
      return true;
    }
  }

  /** The server after a write-back of one device, given how it ended. */
  ghost predicate PublishedOk(m: Manifest, s: Snapshot, before: map<nat, NbDevice>, after: map<nat, NbDevice>, id: nat,
                              status: Status)
  {
    match status
    case Updated =>
      && id in before && !SomeConflict(m, before[id], s)
      && !(FieldsMatch(m, before[id], s) && TagsMatch(m, before[id], s))
      && after == before[id := Mirrored(m, before[id], s)]
    case AlreadyMatching =>
      after == before && id in before && FieldsMatch(m, before[id], s) && TagsMatch(m, before[id], s)
    case InConflict => after == before && id in before && SomeConflict(m, before[id], s)
    case Failed => after == before
    case Skipped => false
  }

  /** What a write sends: the desired fields if any differed, the reconciled tags if they differed. */
  function PatchFor(m: Manifest, d: NbDevice, s: Snapshot): Patch {
    Patch(if FieldsMatch(m, d, s) then None else Some(DesiredFields(m.fields, s)),
          if TagsMatch(m, d, s) then None else Some(ReconciledTags(m, d.tags, s)))
  }

  function Mirrored(m: Manifest, d: NbDevice, s: Snapshot): NbDevice {
    Patched(d, PatchFor(m, d, s))
  }

  ghost function ConflictsOf(fields: seq<FieldMapping>, d: NbDevice, s: Snapshot): seq<Conflict> {
    if fields == [] then []
    else
      var most, last := ConflictsOf(fields[..|fields| - 1], d, s), fields[|fields| - 1];
      if Conflicts(d, last, s) then most + [Conflict(last.field, SourceValue(s, last.source), FieldText(d, last.field))]
      else most
  }

  // ---- what the mirror shows, in the words of the manifest -----------------

  /** The text that a source stands for. */
  ghost predicate StandsFor(source: Source, s: Snapshot, text: string) {
    && (source == LifecycleState ==> text == s.lifecycleState)
    && (source == ComplianceSummary ==> text == s.complianceSummary)
    && (source == ReadinessSummary ==> text == s.readinessSummary)
    && (source == TargetFirmware ==> text == s.targetFirmware)
    && (source == ComplianceEvaluatedAt ==> text == s.complianceEvaluatedAt)
    && (source == ReadinessEvaluatedAt ==> text == s.readinessEvaluatedAt)
    && (source == IpamAlignmentStatus ==> text == s.ipamAlignmentStatus)
  }

  /** Some rule puts this slug on the device. */
  ghost predicate Wanted(m: Manifest, s: Snapshot, slug: string) {
    exists r :: r in m.tags && r.slug == slug &&
      (|| r.when == Always
       || (r.when == DriftOutsideTarget && s.driftOutsideTarget)
       || (r.when == ReadinessBlocked && s.readinessBlocked)
       || (r.when == ReadinessReadyForUplift && s.readinessReadyForUplift)
       || (r.when == IpamMismatch && s.ipamMismatch))
  }

  /** No rule is about this slug. */
  ghost predicate Foreign(m: Manifest, slug: string) {
    forall r :: r in m.tags ==> r.slug != slug
  }

  /** The field is empty, or shows what its source stands for. */
  ghost predicate Writable(d: NbDevice, f: FieldMapping, s: Snapshot) {
    FieldText(d, f.field) == "" || StandsFor(f.source, s, FieldText(d, f.field))
  }

  ghost predicate Shows(m: Manifest, d: NbDevice, s: Snapshot) {
    forall f :: f in m.fields ==> StandsFor(f.source, s, FieldText(d, f.field))
  }

  /** The kept tags are the foreign ones of the list, in their order. */
  ghost predicate KeepsForeign(m: Manifest, slugs: seq<string>, kept: seq<string>) {
    exists at :: KeepsAt(m, slugs, kept, at)
  }

  ghost predicate ForeignAt(m: Manifest, slugs: seq<string>, i: nat, slug: string) {
    i < |slugs| && slugs[i] == slug && Foreign(m, slug)
  }

  ghost predicate KeepsAt(m: Manifest, slugs: seq<string>, kept: seq<string>, at: seq<nat>) {
    && |at| == |kept| && Ascending(at)
    && (forall k :: 0 <= k < |at| ==> ForeignAt(m, slugs, at[k], kept[k]))
    && (forall i :: 0 <= i < |slugs| && Foreign(m, slugs[i]) ==> i in at)
  }

  /** First the foreign tags, in their order; then the wanted ones, each once and in alphabetical order. */
  ghost predicate TaggedAs(m: Manifest, s: Snapshot, before: seq<string>, foreign: seq<string>, ours: seq<string>) {
    && KeepsForeign(m, before, foreign)
    && (forall x :: x in ours <==> Wanted(m, s, x))
    && (forall j, k :: 0 <= j < k < |ours| ==> TextLess(ours[j], ours[k]))
  }

  /** The conflicts are those of the fields that are neither empty nor as they should be. */
  ghost predicate TellsConflicts(m: Manifest, d: NbDevice, s: Snapshot, conflicts: seq<Conflict>) {
    && Distinct(conflicts)
    && forall c :: c in conflicts <==>
         c.actual == FieldText(d, c.field) && c.actual != "" && c.actual != c.expected &&
         exists f :: f in m.fields && f.field == c.field && StandsFor(f.source, s, c.expected)
  }

  /** The fields of the manifest that differ hold the mirrored text; nothing else of the fields is touched. */
  ghost predicate FieldsMirrored(m: Manifest, s: Snapshot, d: NbDevice, e: NbDevice) {
    && Shows(m, e, s)
    && forall x :: (forall f :: f in m.fields ==> f.field != x) ==>
         (x in d.fields <==> x in e.fields) && FieldText(d, x) == FieldText(e, x)
  }

  /** The part of a patch is there exactly if something differs, and is then what the mirror should show. */
  ghost predicate SendsWhatDiffers(m: Manifest, s: Snapshot, d: NbDevice, p: Patch, tags: seq<string>) {
    && p.fields.Some? == !Shows(m, d, s)
    && (p.fields.Some? ==>
          forall x :: (x in p.fields.value <==> exists f :: f in m.fields && f.field == x) &&
            (x in p.fields.value ==>
               exists f :: f in m.fields && f.field == x && StandsFor(f.source, s, p.fields.value[x])))
    && p.tags == if multiset(d.tags) == multiset(tags) then None else Some(tags)
  }

  /** A write-back of one device, told by the server before and after, the requests sent, and the entry. */
  ghost predicate PublishedAs(m: Manifest, s: Snapshot, id: nat, before: map<nat, NbDevice>, after: map<nat, NbDevice>,
                              sent: seq<(nat, Patch)>, e: Entry)
  {
    && (e.status in {AlreadyMatching, InConflict, Failed} ==> after == before && sent == [])
    && (e.status != InConflict ==> e.conflicts == [])
    && match e.status
       case Failed => true
       case Skipped => false
       case InConflict =>
         id in before && e.conflicts != [] && TellsConflicts(m, before[id], s, e.conflicts)
       case AlreadyMatching =>
         && id in before && Shows(m, before[id], s)
         && exists foreign, ours ::
              TaggedAs(m, s, before[id].tags, foreign, ours) && multiset(before[id].tags) == multiset(foreign + ours)
       case Updated =>
         && id in before && id in after && after == before[id := after[id]]
         && (forall f :: f in m.fields ==> Writable(before[id], f, s)) && FieldsMirrored(m, s, before[id], after[id])
         && exists foreign, ours, p ::
              && TaggedAs(m, s, before[id].tags, foreign, ours) && sent == [(id, p)]
              && SendsWhatDiffers(m, s, before[id], p, foreign + ours) && (p.fields.Some? || p.tags.Some?)
              && after[id].tags == if p.tags.Some? then foreign + ours else before[id].tags
  }

  method CompareFields(m: Manifest, d: NbDevice, s: Snapshot)
    returns (conflicts: seq<Conflict>, toWrite: map<string, string>, fieldsMatch: bool)
    ensures conflicts == ConflictsOf(m.fields, d, s) && (conflicts == [] <==> !SomeConflict(m, d, s))
    ensures conflicts == [] ==> toWrite == DesiredFields(m.fields, s) && (fieldsMatch <==> FieldsMatch(m, d, s))
  {
    conflicts, toWrite, fieldsMatch := [], map[], true;
    for i := 0 to |m.fields|
      invariant conflicts == ConflictsOf(m.fields[..i], d, s)
      invariant conflicts == [] <==> forall k :: 0 <= k < i ==> !Conflicts(d, m.fields[k], s)
      invariant conflicts == [] ==> toWrite == DesiredFields(m.fields[..i], s)
      invariant fieldsMatch <==> forall k :: 0 <= k < i && !Conflicts(d, m.fields[k], s) ==>
                                   FieldText(d, m.fields[k].field) == SourceValue(s, m.fields[k].source)
    {
      assert m.fields[..i + 1][..i] == m.fields[..i];
      var field, desired := m.fields[i].field, SourceValue(s, m.fields[i].source);
      var actual := FieldText(d, field);
      if actual != "" && actual != desired {
        conflicts := conflicts + [Conflict(field, desired, actual)];
      } else {
        toWrite := toWrite[field := desired];
        fieldsMatch := fieldsMatch && actual == desired;
      }
    }
    assert m.fields[..|m.fields|] == m.fields;
  }

  /**
   Publishes one device. Conflicts and matches send nothing and each conflict is told; a write sends
   only the part that differs, and leaves the fields and tags that the manifest asks for.
  */
  method PublishDeviceWriteback(server: NetboxServer, m: Manifest, device: nat, id: nat, s: Snapshot) returns (e: Entry)
    requires Linted(m)
    modifies server
    ensures e.device == device && e.netboxId == id && (e.conflicts != [] <==> e.status == InConflict)
    ensures old(server.patches) <= server.patches
    ensures PublishedAs(m, s, id, old(server.devices), server.devices, server.patches[|old(server.patches)|..], e)
    ensures PublishedOk(m, s, old(server.devices), server.devices, id, e.status)
    ensures |server.patches| == |old(server.patches)| + (if e.status == Updated then 1 else 0)
  {
    ghost var before := server.devices;
    e := Publish(server, m, device, id, s);
    PublishingIsExact(m, s, id, before, server.devices, e);
  }

  method Publish(server: NetboxServer, m: Manifest, device: nat, id: nat, s: Snapshot) returns (e: Entry)
    modifies server
    ensures e.device == device && e.netboxId == id && (e.conflicts != [] <==> e.status == InConflict)
    ensures PublishedOk(m, s, old(server.devices), server.devices, id, e.status)
    ensures e.status == InConflict ==> e.conflicts == ConflictsOf(m.fields, old(server.devices)[id], s)
    ensures server.patches == old(server.patches) + Sent(m, s, id, old(server.devices), e)
  {
    var got := server.GetDevice(id);
    if got.None? {
      return Entry(device, id, Failed, []);
    }
    var d := got.value;
    var conflicts, toWrite, fieldsMatch := CompareFields(m, d, s);
    var tags := ReconciledTags(m, d.tags, s);
    var tagsMatch := multiset(d.tags) == multiset(tags);
    if conflicts != [] {
      return Entry(device, id, InConflict, conflicts);
    }
    if fieldsMatch && tagsMatch {
      return Entry(device, id, AlreadyMatching, []);
    }
    var ok := server.PatchDevice(id,
                                 Patch(if fieldsMatch then None else Some(toWrite),
                                       if tagsMatch then None else Some(tags)));
    return Entry(device, id, if ok then Updated else Failed, []);
  }

  /** The request that an update sent. */
  ghost function Sent(m: Manifest, s: Snapshot, id: nat, before: map<nat, NbDevice>, e: Entry): seq<(nat, Patch)> {
    if e.status == Updated && id in before then [(id, PatchFor(m, before[id], s))] else []
  }

  // ---- the mirror is exact -------------------------------------------------

  lemma StandsForIff(source: Source, s: Snapshot, text: string)
    ensures StandsFor(source, s, text) <==> text == SourceValue(s, source)
  {
  }

  lemma ShowsIff(m: Manifest, d: NbDevice, s: Snapshot)
    ensures Shows(m, d, s) <==> FieldsMatch(m, d, s)
    ensures (forall f :: f in m.fields ==> Writable(d, f, s)) <==> !SomeConflict(m, d, s)
  {
    forall f: FieldMapping
      ensures StandsFor(f.source, s, FieldText(d, f.field)) <==> FieldText(d, f.field) == SourceValue(s, f.source)
    {
      StandsForIff(f.source, s, FieldText(d, f.field));
    }
    if !SomeConflict(m, d, s) {
      forall f | f in m.fields ensures Writable(d, f, s) {
        var i :| 0 <= i < |m.fields| && m.fields[i] == f;
        assert !Conflicts(d, m.fields[i], s);
      }
    }
    if i :| 0 <= i < |m.fields| && Conflicts(d, m.fields[i], s) {
      assert m.fields[i] in m.fields && !Writable(d, m.fields[i], s);
    }
  }

  lemma WantedIff(m: Manifest, s: Snapshot, slug: string)
    ensures Wanted(m, s, slug) <==> Desired(m, s, slug)
  {
    if i :| 0 <= i < |m.tags| && m.tags[i].slug == slug && TagApplies(m.tags[i].when, s) {
      assert m.tags[i] in m.tags;
    }
  }

  lemma ForeignIff(m: Manifest, slug: string)
    ensures Foreign(m, slug) <==> !Managed(m, slug)
  {
    if i :| 0 <= i < |m.tags| && m.tags[i].slug == slug {
      assert m.tags[i] in m.tags;
    }
  }

  lemma {:induction false} UnmanagedKeepsForeign(m: Manifest, slugs: seq<string>) returns (at: seq<nat>)
    ensures KeepsAt(m, slugs, Unmanaged(m, slugs), at)
  {
    if slugs == [] {
      at := [];
    } else {
      var most, last := slugs[..|slugs| - 1], slugs[|slugs| - 1];
      at := UnmanagedKeepsForeign(m, most);
      assert slugs == most + [last];
      at := KeepsOneMore(m, most, last, Unmanaged(m, most), at);
    }
  }

  lemma KeepsOneMore(m: Manifest, most: seq<string>, last: string, kept: seq<string>, at: seq<nat>)
    returns (all: seq<nat>)
    requires KeepsAt(m, most, kept, at)
    ensures KeepsAt(m, most + [last], if Managed(m, last) then kept else kept + [last], all)
  {
    var slugs := most + [last];
    ForeignIff(m, last);
    forall k | 0 <= k < |at| ensures ForeignAt(m, slugs, at[k], kept[k]) && at[k] < |most| {
      assert ForeignAt(m, most, at[k], kept[k]);
    }
    AscendingSnoc(at, |most|);
    all := if Managed(m, last) then at else at + [|most|];
    forall i | 0 <= i < |slugs| && Foreign(m, slugs[i]) ensures i in all {
      if i < |most| {
        assert Foreign(m, most[i]) && i in at;
      }
    }
  }

  lemma TextAtMostIsOrder()
    ensures TotalPreorder(TextAtMost)
  {
    forall a, b ensures TextAtMost(a, b) || TextAtMost(b, a) {
      TextsCompare(a, b);
    }
    forall a, b, c | TextAtMost(a, b) && TextAtMost(b, c) ensures TextAtMost(a, c) {
      TextsCompare(a, b);
      TextsCompare(b, c);
      TextsCompare(a, c);
      if TextLess(c, a) && TextLess(a, b) {
        TextOrderIsTransitive(c, a, b);
      }
    }
  }

  /** The wanted tags, sorted, are each there once and ascend. */
  lemma OurTags(m: Manifest, s: Snapshot)
    requires Linted(m)
    ensures var ours := Sort(DesiredTags(m.tags, s), TextAtMost);
            && (forall x :: x in ours <==> Wanted(m, s, x))
            && (forall j, k :: 0 <= j < k < |ours| ==> TextLess(ours[j], ours[k]))
  {
    var desired := DesiredTags(m.tags, s);
    var ours := Sort(desired, TextAtMost);
    DesiredTagsExactly(m.tags, s);
    SortPermutes(desired, TextAtMost);
    TextAtMostIsOrder();
    SortSorts(desired, TextAtMost);
    forall x ensures x in ours <==> Wanted(m, s, x) {
      WantedIff(m, s, x);
      assert x in multiset(ours) <==> x in multiset(desired);
    }
    DistinctMultiplicity(desired);
    forall j, k | 0 <= j < k < |ours| ensures TextLess(ours[j], ours[k]) {
      assert TextAtMost(ours[j], ours[k]);
      TextsCompare(ours[j], ours[k]);
      if ours[j] == ours[k] {
        TwicePresent(ours, j, k);
      }
    }
  }

  lemma TwicePresent(slugs: seq<string>, j: nat, k: nat)
    requires j < k < |slugs| && slugs[j] == slugs[k]
    ensures multiset(slugs)[slugs[j]] >= 2
  {
    assert slugs == slugs[..k] + [slugs[k]] + slugs[k + 1..];
    assert slugs[j] in slugs[..k];
  }

  lemma ReconciledTagsExactly(m: Manifest, current: seq<string>, s: Snapshot)
    requires Linted(m)
    ensures TaggedAs(m, s, current, Unmanaged(m, current), Sort(DesiredTags(m.tags, s), TextAtMost))
  {
    var at := UnmanagedKeepsForeign(m, current);
    OurTags(m, s);
  }

  lemma {:induction false} ConflictsExactly(fields: seq<FieldMapping>, d: NbDevice, s: Snapshot)
    requires forall i, j :: 0 <= i < j < |fields| ==> fields[i].field != fields[j].field
    ensures Distinct(ConflictsOf(fields, d, s))
    ensures forall c :: c in ConflictsOf(fields, d, s) <==>
              c.actual == FieldText(d, c.field) && c.actual != "" && c.actual != c.expected &&
              exists f :: f in fields && f.field == c.field && c.expected == SourceValue(s, f.source)
  {
    if fields == [] {
    } else {
      var most, last := fields[..|fields| - 1], fields[|fields| - 1];
      assert fields == most + [last];
      ConflictsExactly(most, d, s);
      forall c | c in ConflictsOf(most, d, s) ensures c.field != last.field {
        var f :| f in most && f.field == c.field;
        var i :| 0 <= i < |most| && most[i] == f;
        assert fields[i] == f;
      }
    }
  }

  lemma ConflictsAreTold(m: Manifest, d: NbDevice, s: Snapshot)
    requires Linted(m)
    ensures TellsConflicts(m, d, s, ConflictsOf(m.fields, d, s))
  {
    ConflictsExactly(m.fields, d, s);
    forall f: FieldMapping, text ensures StandsFor(f.source, s, text) <==> text == SourceValue(s, f.source) {
      StandsForIff(f.source, s, text);
    }
  }

  lemma DesiredFieldsStandForSources(m: Manifest, s: Snapshot, x: string)
    requires Linted(m)
    ensures x in DesiredFields(m.fields, s) <==> exists f :: f in m.fields && f.field == x
    ensures x in DesiredFields(m.fields, s) ==>
              exists f :: f in m.fields && f.field == x && StandsFor(f.source, s, DesiredFields(m.fields, s)[x])
  {
    DesiredFieldsExactly(m.fields, s);
    if x in DesiredFields(m.fields, s) {
      var i :| 0 <= i < |m.fields| && m.fields[i].field == x;
      StandsForIff(m.fields[i].source, s, DesiredFields(m.fields, s)[x]);
      assert m.fields[i] in m.fields;
    }
    if f :| f in m.fields && f.field == x {
      var i :| 0 <= i < |m.fields| && m.fields[i] == f;
    }
  }

  lemma PatchSendsWhatDiffers(m: Manifest, d: NbDevice, s: Snapshot)
    requires Linted(m)
    ensures SendsWhatDiffers(m, s, d, PatchFor(m, d, s), ReconciledTags(m, d.tags, s))
  {
    ShowsIff(m, d, s);
    forall x
      ensures x in DesiredFields(m.fields, s) <==> exists f :: f in m.fields && f.field == x
      ensures x in DesiredFields(m.fields, s) ==>
                exists f :: f in m.fields && f.field == x && StandsFor(f.source, s, DesiredFields(m.fields, s)[x])
    {
      DesiredFieldsStandForSources(m, s, x);
    }
  }

  lemma FieldsAreMirrored(m: Manifest, d: NbDevice, s: Snapshot)
    requires Linted(m)
    ensures FieldsMirrored(m, s, d, Mirrored(m, d, s))
  {
    FieldsAfterWrite(m, d, s);
    ShowsIff(m, Mirrored(m, d, s), s);
    forall x | forall f :: f in m.fields ==> f.field != x ensures !ManagedField(m, x) {
      forall i | 0 <= i < |m.fields| ensures m.fields[i].field != x {
        assert m.fields[i] in m.fields;
      }
    }
  }

  lemma PublishingIsExact(m: Manifest, s: Snapshot, id: nat, before: map<nat, NbDevice>, after: map<nat, NbDevice>,
                          e: Entry)
    requires Linted(m) && PublishedOk(m, s, before, after, id, e.status)
    requires e.conflicts != [] <==> e.status == InConflict
    requires e.status == InConflict ==> e.conflicts == ConflictsOf(m.fields, before[id], s)
    ensures PublishedAs(m, s, id, before, after, Sent(m, s, id, before, e), e)
  {
    if id in before {
      var d := before[id];
      ShowsIff(m, d, s);
      ConflictsAreTold(m, d, s);
      ReconciledTagsExactly(m, d.tags, s);
      PatchSendsWhatDiffers(m, d, s);
      FieldsAreMirrored(m, d, s);
    }
  }

  // ---- a batch -------------------------------------------------------------

  datatype Linked = Linked(device: nat, netboxId: Option<nat>, snapshot: Snapshot)

  datatype Summary = Summary(updated: nat, skipped: nat, matching: nat, conflict: nat, failed: nat, notLinked: nat)

  datatype Phase = Completed | Partial | PhaseFailed

  function Count(entries: seq<Entry>, status: Status): nat {
    if entries == [] then 0
    else Count(entries[..|entries| - 1], status) + (if entries[|entries| - 1].status == status then 1 else 0)
  }

  lemma {:induction false} CountOneMore(entries: seq<Entry>, e: Entry, status: Status)
    ensures Count(entries + [e], status) == Count(entries, status) + (if e.status == status then 1 else 0)
  {
    assert (entries + [e])[..|entries|] == entries;
  }

  ghost predicate CountedBy(summary: Summary, entries: seq<Entry>) {
    && summary.updated == Count(entries, Updated) && summary.skipped == Count(entries, Skipped)
    && summary.matching == Count(entries, AlreadyMatching) && summary.conflict == Count(entries, InConflict)
    && summary.failed == Count(entries, Failed)
  }

  function Tallied(summary: Summary, status: Status): Summary {
    match status
    case Updated => summary.(updated := summary.updated + 1)
    case Skipped => summary.(skipped := summary.skipped + 1)
    case AlreadyMatching => summary.(matching := summary.matching + 1)
    case InConflict => summary.(conflict := summary.conflict + 1)
    case Failed => summary.(failed := summary.failed + 1)
  }

  lemma TallyCounts(summary: Summary, entries: seq<Entry>, e: Entry)
    requires CountedBy(summary, entries)
    ensures CountedBy(Tallied(summary, e.status), entries + [e])
  {
    CountOneMore(entries, e, Updated);
    CountOneMore(entries, e, Skipped);
    CountOneMore(entries, e, AlreadyMatching);
    CountOneMore(entries, e, InConflict);
    CountOneMore(entries, e, Failed);
  }

  lemma PublishingRespects(m: Manifest, s: Snapshot, before: map<nat, NbDevice>, after: map<nat, NbDevice>, id: nat,
                           status: Status)
    requires Linted(m) && PublishedOk(m, s, before, after, id, status)
    ensures RespectsAll(m, before, after)
  {
    forall x | x in before ensures Respects(m, before[x], before[x]) {
    }
    if status == Updated {
      MirroredRespects(m, before[id], s);
    } else {
      assert after == before;
    }
  }

  ghost function EntriesWith(entries: seq<Entry>, status: Status): set<int> {
    set k | 0 <= k < |entries| && entries[k].status == status
  }

  /** Every counter is the number of entries with its status. */
  ghost predicate CountsEntries(summary: Summary, entries: seq<Entry>) {
    && summary.updated == |EntriesWith(entries, Updated)| && summary.skipped == |EntriesWith(entries, Skipped)|
    && summary.matching == |EntriesWith(entries, AlreadyMatching)|
    && summary.conflict == |EntriesWith(entries, InConflict)| && summary.failed == |EntriesWith(entries, Failed)|
  }

  lemma {:induction false} CountIsEntries(entries: seq<Entry>, status: Status)
    ensures Count(entries, status) == |EntriesWith(entries, status)|
  {
    if entries == [] {
    } else {
      var most, last := entries[..|entries| - 1], entries[|entries| - 1];
      CountIsEntries(most, status);
      EntriesOneMore(most, last, entries, status);
    }
  }

  lemma EntriesOneMore(most: seq<Entry>, last: Entry, entries: seq<Entry>, status: Status)
    requires entries == most + [last]
    ensures |EntriesWith(entries, status)| == |EntriesWith(most, status)| + (if last.status == status then 1 else 0)
  {
    assert EntriesWith(entries, status) ==
           EntriesWith(most, status) + (if last.status == status then {|most|} else {});
  }

  ghost predicate EntryFor(batch: seq<Linked>, i: nat, e: Entry) {
    i < |batch| && e.device == batch[i].device && batch[i].netboxId == Some(e.netboxId)
  }

  /** There is one entry for every linked device of the batch, in its order. */
  ghost predicate EntriesFor(batch: seq<Linked>, entries: seq<Entry>, at: seq<nat>) {
    && |at| == |entries| && Ascending(at)
    && (forall k :: 0 <= k < |at| ==> EntryFor(batch, at[k], entries[k]))
    && (forall i :: 0 <= i < |batch| && batch[i].netboxId.Some? ==> i in at)
  }

  /** No later device of the batch is linked to the same one in NetBox. */
  ghost predicate LastFor(batch: seq<Linked>, i: nat)
    requires i < |batch|
  {
    forall j :: i < j < |batch| ==> batch[j].netboxId != batch[i].netboxId
  }

  ghost predicate IsShown(e: Entry) {
    e.status == Updated || e.status == AlreadyMatching
  }

  ghost predicate ShownAt(m: Manifest, l: Linked, devices: map<nat, NbDevice>) {
    && l.netboxId.Some? && l.netboxId.value in devices && Shows(m, devices[l.netboxId.value], l.snapshot)
  }

  /** Whatever was updated or matched, and not written over by a later device, shows its snapshot in the end. */
  ghost predicate AllShown(m: Manifest, batch: seq<Linked>, entries: seq<Entry>, at: seq<nat>,
                           devices: map<nat, NbDevice>)
  {
    forall k :: 0 <= k < |at| && k < |entries| && at[k] < |batch| && IsShown(entries[k]) && LastFor(batch, at[k]) ==>
      ShownAt(m, batch[at[k]], devices)
  }

  /** A server that differs from another one in one device at most. */
  ghost predicate OnlyTouches(before: map<nat, NbDevice>, after: map<nat, NbDevice>, id: nat) {
    forall x :: x != id ==> (x in before <==> x in after) && (x in before ==> after[x] == before[x])
  }

  lemma EntriesSnoc(batch: seq<Linked>, entries: seq<Entry>, at: seq<nat>, l: Linked, e: Entry)
    requires EntriesFor(batch, entries, at)
    ensures l.netboxId.None? ==> EntriesFor(batch + [l], entries, at)
    ensures l.netboxId == Some(e.netboxId) && l.device == e.device ==>
              EntriesFor(batch + [l], entries + [e], at + [|batch|])
  {
    var all := batch + [l];
    forall k | 0 <= k < |at| ensures EntryFor(all, at[k], entries[k]) && at[k] < |batch| {
      assert EntryFor(batch, at[k], entries[k]);
    }
    AscendingSnoc(at, |batch|);
  }

  lemma LastForPrefix(batch: seq<Linked>, l: Linked, i: nat)
    requires i < |batch| && LastFor(batch + [l], i)
    ensures LastFor(batch, i) && l.netboxId != batch[i].netboxId
  {
    var all := batch + [l];
    assert all[|batch|] == l && forall j :: 0 <= j < |batch| ==> all[j] == batch[j];
  }

  lemma ShownAfterUnlinked(m: Manifest, batch: seq<Linked>, entries: seq<Entry>, at: seq<nat>, l: Linked,
                           devices: map<nat, NbDevice>)
    requires EntriesFor(batch, entries, at) && AllShown(m, batch, entries, at, devices)
    ensures AllShown(m, batch + [l], entries, at, devices)
  {
    forall k | 0 <= k < |at| && IsShown(entries[k]) && at[k] < |batch + [l]| &&
               LastFor(batch + [l], at[k])
      ensures ShownAt(m, (batch + [l])[at[k]], devices)
    {
      assert EntryFor(batch, at[k], entries[k]);
      LastForPrefix(batch, l, at[k]);
    }
  }

  lemma ShownAfterLinked(m: Manifest, batch: seq<Linked>, entries: seq<Entry>, at: seq<nat>, l: Linked, e: Entry,
                         devices: map<nat, NbDevice>, after: map<nat, NbDevice>)
    requires EntriesFor(batch, entries, at) && AllShown(m, batch, entries, at, devices)
    requires l.netboxId.Some? && OnlyTouches(devices, after, l.netboxId.value)
    requires IsShown(e) ==> ShownAt(m, l, after)
    ensures AllShown(m, batch + [l], entries + [e], at + [|batch|], after)
  {
    var all := at + [|batch|];
    forall k | 0 <= k < |all| && IsShown((entries + [e])[k]) && all[k] < |batch + [l]| &&
               LastFor(batch + [l], all[k])
      ensures ShownAt(m, (batch + [l])[all[k]], after)
    {
      if k < |at| {
        assert EntryFor(batch, at[k], entries[k]);
        LastForPrefix(batch, l, at[k]);
        assert ShownAt(m, batch[at[k]], devices);
      }
    }
  }

  lemma PublishedShows(m: Manifest, l: Linked, id: nat, before: map<nat, NbDevice>, after: map<nat, NbDevice>,
                       status: Status)
    requires Linted(m) && PublishedOk(m, l.snapshot, before, after, id, status) && l.netboxId == Some(id)
    ensures OnlyTouches(before, after, id) && (status == Updated || status == AlreadyMatching ==> ShownAt(m, l, after))
  {
    if status == Updated {
      FieldsAreMirrored(m, before[id], l.snapshot);
    } else if status == AlreadyMatching {
      ShowsIff(m, before[id], l.snapshot);
    }
  }

  /**
   The batch: every device is counted in exactly one outcome, none is skipped, every update is one
   PATCH, and whatever NetBox held that is not ours, or was already filled in, is still there. The
   entries are those of the linked devices, in order, and what was updated or matched shows its
   snapshot in the end, unless a later device of the batch is linked to the same place.
  */
  method RunWriteback(server: NetboxServer, m: Manifest, batch: seq<Linked>)
    returns (summary: Summary, entries: seq<Entry>, phase: Phase)
    requires Linted(m)
    modifies server
    ensures CountsEntries(summary, entries) && summary.skipped == 0
    ensures exists at :: EntriesFor(batch, entries, at) && AllShown(m, batch, entries, at, server.devices)
    ensures summary.notLinked == |batch| - |entries|
    ensures summary.updated + summary.matching + summary.conflict + summary.failed + summary.notLinked == |batch|
    ensures |server.patches| == |old(server.patches)| + summary.updated
    ensures RespectsAll(m, old(server.devices), server.devices)
    ensures phase == Completed <==> summary.failed == 0
    ensures phase == PhaseFailed <==> summary.failed > 0 && summary.failed + summary.notLinked == |batch|
  {
    summary, entries := Summary(0, 0, 0, 0, 0, 0), [];
    ghost var done: seq<Linked> := [];
    ghost var at: seq<nat> := [];
    for i := 0 to |batch|
      invariant |done| == i && done <= batch
      invariant CountedBy(summary, entries) && summary.notLinked == i - |entries| && summary.skipped == 0
      invariant summary.updated + summary.matching + summary.conflict + summary.failed + summary.notLinked == i
      invariant |server.patches| == |old(server.patches)| + summary.updated
      invariant RespectsAll(m, old(server.devices), server.devices)
      invariant EntriesFor(done, entries, at) && AllShown(m, done, entries, at, server.devices)
    {
      if batch[i].netboxId.None? {
        EntriesSnoc(done, entries, at, batch[i], Entry(0, 0, Failed, []));
        ShownAfterUnlinked(m, done, entries, at, batch[i], server.devices);
        summary := summary.(notLinked := summary.notLinked + 1);
      } else {
        summary, entries, at := PublishOneMore(server, m, batch[i], summary, entries, done, at);
      }
      done := done + [batch[i]];
    }
    assert done == batch;
    EntriesAreCounted(summary, entries);
    if summary.failed > 0 && (summary.updated > 0 || summary.matching > 0 || summary.conflict > 0) {
      phase := Partial;
    } else if summary.failed > 0 {
      phase := PhaseFailed;
    } else {
      phase := Completed;
    }
  }

  lemma EntriesAreCounted(summary: Summary, entries: seq<Entry>)
    requires CountedBy(summary, entries)
    ensures CountsEntries(summary, entries)
  {
    CountIsEntries(entries, Updated);
    CountIsEntries(entries, Skipped);
    CountIsEntries(entries, AlreadyMatching);
    CountIsEntries(entries, InConflict);
    CountIsEntries(entries, Failed);
  }

  method PublishOneMore(server: NetboxServer, m: Manifest, l: Linked, before: Summary, known: seq<Entry>,
                        ghost done: seq<Linked>, ghost at: seq<nat>)
    returns (summary: Summary, entries: seq<Entry>, ghost places: seq<nat>)
    requires Linted(m) && l.netboxId.Some? && CountedBy(before, known)
    requires EntriesFor(done, known, at) && AllShown(m, done, known, at, server.devices)
    modifies server
    ensures CountedBy(summary, entries) && summary.notLinked == before.notLinked && summary.skipped == before.skipped
    ensures |entries| == |known| + 1
    ensures summary.updated + summary.matching + summary.conflict + summary.failed ==
            before.updated + before.matching + before.conflict + before.failed + 1
    ensures |server.patches| - |old(server.patches)| == summary.updated - before.updated
    ensures forall start :: RespectsAll(m, start, old(server.devices)) ==> RespectsAll(m, start, server.devices)
    ensures EntriesFor(done + [l], entries, places) && AllShown(m, done + [l], entries, places, server.devices)
  {
    ghost var was := server.devices;
    var e := PublishDeviceWriteback(server, m, l.device, l.netboxId.value, l.snapshot);
    PublishingRespects(m, l.snapshot, was, server.devices, l.netboxId.value, e.status);
    forall start | RespectsAll(m, start, was) ensures RespectsAll(m, start, server.devices) {
      RespectIsTransitive(m, start, was, server.devices);
    }
    PublishedShows(m, l, l.netboxId.value, was, server.devices, e.status);
    EntriesSnoc(done, known, at, l, e);
    ShownAfterLinked(m, done, known, at, l, e, was, server.devices);
    TallyCounts(before, known, e);
    entries, summary, places := known + [e], Tallied(before, e.status), at + [|done|];
  }

  // ---- non-interference ----------------------------------------------------

  predicate ManagedField(m: Manifest, field: string) {
    exists i :: 0 <= i < |m.fields| && m.fields[i].field == field
  }

  /** Filled fields keep their text, foreign fields are untouched, and foreign tags keep their order. */
  ghost predicate Respects(m: Manifest, a: NbDevice, b: NbDevice) {
    && (forall f :: FieldText(a, f) != "" ==> FieldText(b, f) == FieldText(a, f))
    && (forall f :: !ManagedField(m, f) ==> (f in a.fields <==> f in b.fields) && FieldText(a, f) == FieldText(b, f))
    && Unmanaged(m, b.tags) == Unmanaged(m, a.tags)
  }

  ghost predicate RespectsAll(m: Manifest, before: map<nat, NbDevice>, after: map<nat, NbDevice>) {
    before.Keys == after.Keys && forall id :: id in before ==> Respects(m, before[id], after[id])
  }

  lemma RespectIsTransitive(m: Manifest, a: map<nat, NbDevice>, b: map<nat, NbDevice>, c: map<nat, NbDevice>)
    requires RespectsAll(m, a, b) && RespectsAll(m, b, c)
    ensures RespectsAll(m, a, c)
  {
    forall id | id in a ensures Respects(m, a[id], c[id]) {
      assert Respects(m, a[id], b[id]) && Respects(m, b[id], c[id]);
    }
  }

  lemma {:induction false} DesiredFieldsExactly(fields: seq<FieldMapping>, s: Snapshot)
    requires forall i, j :: 0 <= i < j < |fields| ==> fields[i].field != fields[j].field
    ensures forall f :: f in DesiredFields(fields, s) <==> exists i :: 0 <= i < |fields| && fields[i].field == f
    ensures forall i :: 0 <= i < |fields| ==> fields[i].field in DesiredFields(fields, s) &&
                                              DesiredFields(fields, s)[fields[i].field] ==
                                                SourceValue(s, fields[i].source)
  {
    if fields == [] {
    } else {
      var most, last := fields[..|fields| - 1], fields[|fields| - 1];
      DesiredFieldsExactly(most, s);
      forall f ensures f in DesiredFields(fields, s) <==> exists i :: 0 <= i < |fields| && fields[i].field == f {
        if i :| 0 <= i < |most| && most[i].field == f {
          assert fields[i].field == f;
        }
        assert fields[|most|].field == last.field;
      }
    }
  }

  lemma FieldsAfterWrite(m: Manifest, d: NbDevice, s: Snapshot)
    requires Linted(m)
    ensures forall i :: 0 <= i < |m.fields| ==>
              FieldText(Mirrored(m, d, s), m.fields[i].field) == SourceValue(s, m.fields[i].source)
    ensures forall f :: !ManagedField(m, f) ==>
              (f in d.fields <==> f in Mirrored(m, d, s).fields) && FieldText(Mirrored(m, d, s), f) == FieldText(d, f)
  {
    DesiredFieldsExactly(m.fields, s);
  }

  lemma {:induction false} UnmanagedConcat(m: Manifest, a: seq<string>, b: seq<string>)
    ensures Unmanaged(m, a + b) == Unmanaged(m, a) + Unmanaged(m, b)
  {
    if b == [] {
      assert a + b == a;
    } else {
      UnmanagedConcat(m, a, b[..|b| - 1]);
      assert (a + b)[..|a + b| - 1] == a + b[..|b| - 1];
    }
  }

  lemma {:induction false} UnmanagedTwice(m: Manifest, slugs: seq<string>)
    ensures Unmanaged(m, Unmanaged(m, slugs)) == Unmanaged(m, slugs)
    ensures forall x :: x in Unmanaged(m, slugs) <==> x in slugs && !Managed(m, x)
  {
    if slugs == [] {
    } else {
      var most, last := slugs[..|slugs| - 1], slugs[|slugs| - 1];
      UnmanagedTwice(m, most);
      assert slugs == most + [last];
    }
  }

  lemma {:induction false} ManagedOnly(m: Manifest, slugs: seq<string>)
    requires forall x :: x in slugs ==> Managed(m, x)
    ensures Unmanaged(m, slugs) == []
  {
    if slugs == [] {
    } else {
      assert slugs[|slugs| - 1] in slugs;
      ManagedOnly(m, slugs[..|slugs| - 1]);
    }
  }

  lemma {:induction false} DesiredTagsExactly(rules: seq<TagRule>, s: Snapshot)
    requires forall i, j :: 0 <= i < j < |rules| ==> rules[i].slug != rules[j].slug
    ensures forall x :: x in DesiredTags(rules, s) <==>
            exists i :: 0 <= i < |rules| && rules[i].slug == x && TagApplies(rules[i].when, s)
    ensures Distinct(DesiredTags(rules, s))
  {
    if rules == [] {
    } else {
      var most, last := rules[..|rules| - 1], rules[|rules| - 1];
      DesiredTagsExactly(most, s);
      forall x | x in DesiredTags(most, s) ensures x != last.slug {
        var i :| 0 <= i < |most| && most[i].slug == x && TagApplies(most[i].when, s);
        assert rules[i] == most[i];
      }
      assert forall j :: 0 <= j < |DesiredTags(most, s)| ==> DesiredTags(most, s)[j] in DesiredTags(most, s);
      forall x
        ensures x in DesiredTags(rules, s) <==>
                exists i :: 0 <= i < |rules| && rules[i].slug == x && TagApplies(rules[i].when, s)
      {
        if i :| 0 <= i < |most| && most[i].slug == x && TagApplies(most[i].when, s) {
          assert rules[i] == most[i];
        }
        assert rules[|most|] == last;
      }
    }
  }

  /**
   Reconciliation of tags: foreign tags stay in their order, and a managed tag is present exactly
   when its rule applies, and then once.
  */
  lemma TagsBecomeExact(m: Manifest, current: seq<string>, s: Snapshot)
    requires Linted(m)
    ensures Unmanaged(m, ReconciledTags(m, current, s)) == Unmanaged(m, current)
    ensures forall x :: Managed(m, x) ==>
              multiset(ReconciledTags(m, current, s))[x] == if Desired(m, s, x) then 1 else 0
  {
    var desired := DesiredTags(m.tags, s);
    var sorted := Sort(desired, TextAtMost);
    DesiredTagsExactly(m.tags, s);
    SortPermutes(desired, TextAtMost);
    DistinctMultiplicity(desired);
    UnmanagedTwice(m, current);
    forall x | x in sorted ensures Managed(m, x) {
      var i :| 0 <= i < |m.tags| && m.tags[i].slug == x && TagApplies(m.tags[i].when, s);
    }
    ManagedOnly(m, sorted);
    UnmanagedConcat(m, Unmanaged(m, current), sorted);
    assert Unmanaged(m, current) + [] == Unmanaged(m, current);
    forall x | Managed(m, x) ensures multiset(ReconciledTags(m, current, s))[x] == if Desired(m, s, x) then 1 else 0 {
      assert x !in Unmanaged(m, current);
      assert multiset(sorted)[x] == multiset(desired)[x];
      assert Desired(m, s, x) <==> x in desired;
    }
  }

  /** A write never tramples: it only fills empty managed fields and exchanges managed tags. */
  lemma MirroredRespects(m: Manifest, d: NbDevice, s: Snapshot)
    requires Linted(m) && !SomeConflict(m, d, s)
    ensures Respects(m, d, Mirrored(m, d, s))
  {
    FieldsAfterWrite(m, d, s);
    TagsBecomeExact(m, d.tags, s);
    var e := Mirrored(m, d, s);
    forall f | FieldText(d, f) != "" ensures FieldText(e, f) == FieldText(d, f) {
      if ManagedField(m, f) {
        var i :| 0 <= i < |m.fields| && m.fields[i].field == f;
        assert !Conflicts(d, m.fields[i], s);
      }
    }
  }

  // ---- convergence ---------------------------------------------------------

  lemma {:induction false} UnmanagedOfPermutation(m: Manifest, slugs: seq<string>, x: string)
    ensures multiset(Unmanaged(m, slugs))[x] == if Managed(m, x) then 0 else multiset(slugs)[x]
  {
    if slugs == [] {
    } else {
      UnmanagedOfPermutation(m, slugs[..|slugs| - 1], x);
      assert slugs == slugs[..|slugs| - 1] + [slugs[|slugs| - 1]];
    }
  }

  lemma ReconciledAgain(m: Manifest, current: seq<string>, shown: seq<string>, s: Snapshot)
    requires Linted(m) && multiset(shown) == multiset(ReconciledTags(m, current, s))
    ensures multiset(ReconciledTags(m, shown, s)) == multiset(shown)
  {
    var reconciled := ReconciledTags(m, current, s);
    TagsBecomeExact(m, current, s);
    TagsBecomeExact(m, shown, s);
    forall x ensures multiset(ReconciledTags(m, shown, s))[x] == multiset(shown)[x] {
      if !Managed(m, x) {
        UnmanagedOfPermutation(m, shown, x);
        UnmanagedOfPermutation(m, ReconciledTags(m, shown, s), x);
      }
    }
  }

  /** What NetBox may show for a device: the same fields, and the same tags in any order. */
  ghost predicate ShownAs(d: NbDevice, e: NbDevice) {
    d.fields == e.fields && multiset(d.tags) == multiset(e.tags)
  }

  /** Publishing the same snapshot again finds everything in place, in whatever order NetBox lists the tags. */
  lemma PublishingAgainFindsAMatch(m: Manifest, d: NbDevice, s: Snapshot, shown: NbDevice)
    requires Linted(m) && !SomeConflict(m, d, s) && ShownAs(shown, Mirrored(m, d, s))
    ensures !SomeConflict(m, shown, s) && FieldsMatch(m, shown, s) && TagsMatch(m, shown, s)
  {
    var e := Mirrored(m, d, s);
    FieldsAfterWrite(m, d, s);
    assert forall i :: 0 <= i < |m.fields| ==> FieldText(shown, m.fields[i].field) == FieldText(e, m.fields[i].field);
    ReconciledAgain(m, d.tags, shown.tags, s);
  }

  /** A value that was not empty has changed. */
  predicate Moves(source: Source, first: Snapshot, later: Snapshot) {
    SourceValue(first, source) != "" && SourceValue(first, source) != SourceValue(later, source)
  }

  /**
   The price of never overwriting: once a snapshot has been written, publishing a later one ends in
   a conflict exactly when some mirrored value that was not empty has changed since.
  */
  lemma LaterSnapshotConflictsIff(m: Manifest, d: NbDevice, first: Snapshot, later: Snapshot)
    requires Linted(m) && !SomeConflict(m, d, first)
    ensures SomeConflict(m, Mirrored(m, d, first), later) <==>
            exists i :: 0 <= i < |m.fields| && Moves(m.fields[i].source, first, later)
  {
    var e := Mirrored(m, d, first);
    FieldsAfterWrite(m, d, first);
    forall i | 0 <= i < |m.fields|
      ensures Conflicts(e, m.fields[i], later) <==> Moves(m.fields[i].source, first, later)
    {
    }
  }
}
