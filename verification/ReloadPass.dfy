/**
 The pass that ends a catalog reload. Every affected device is assessed, judged for compliance and
 judged for readiness. The device table is one for both controllers, so what the first judgement does
 to the lifecycle is what the second one starts from.
*/
module ReloadPass {
  import opened Prelude
  import opened Prerequisites
  import opened Compliance
  import opened ComplianceTheorems
  import Readiness
  import ReadinessTheorems
  import Sorting

  // ---- one visit -----------------------------------------------------------

  /** What the tables hold about a device: its row, its verdicts, the time of the latest one, and its readiness rows. */
  datatype View = View(device: Device, verdicts: seq<VerdictRow>, judgedAt: Option<int>, readiness: seq<Readiness.Row>)

  /** The latest verdict as the readiness controller reads it; the rows of a device are numbered in their order. */
  function LatestRow(verdicts: seq<VerdictRow>, judgedAt: Option<int>): Option<Readiness.ComplianceRow> {
    if verdicts == [] || judgedAt.None? then None
    else
      var number := |verdicts| - 1;
      var last := verdicts[number];
      Some(Readiness.ComplianceRow(number, last.state, last.targetVersion, last.observedVersion, judgedAt.value))
  }

  /** The inputs of the readiness judgement, with the latest verdict on this device among them. */
  function Inputs(base: Readiness.Env, id: nat, latest: Option<Readiness.ComplianceRow>): Readiness.Env {
    base.(compliance := if latest.Some? then map[id := latest.value] else map[])
  }

  /** The device is assessed, then evaluated, which assesses it once more. */
  ghost function Rejudged(env: Env, v: View): View {
    var d := Settle(env, v.device);
    WithVerdict(v, Settle(env, d), VerdictOf(env, d), env.now)
  }

  /** A verdict that repeats the latest one leaves the history, and the time of its latest row, alone. */
  function WithVerdict(v: View, d: Device, row: VerdictRow, now: int): View {
    View(d, Extended(v.verdicts, row), if Repeats(v.verdicts, row) then v.judgedAt else Some(now), v.readiness)
  }

  function Extended(verdicts: seq<VerdictRow>, row: VerdictRow): seq<VerdictRow> {
    if Repeats(verdicts, row) then verdicts else verdicts + [row]
  }

  ghost function ReadinessOf(base: Readiness.Env, v: View): Result<Readiness.Row, Readiness.EvaluateError> {
    Readiness.Verdict(Inputs(base, v.device.id, LatestRow(v.verdicts, v.judgedAt)), v.device)
  }

  /** Does the readiness judgement add a row? A stale verdict makes it fail, which is logged and passed over. */
  predicate News(readiness: seq<Readiness.Row>, judged: Result<Readiness.Row, Readiness.EvaluateError>) {
    judged.Ok? && !Readiness.Unchanged(readiness, judged.value)
  }

  ghost function Reread(base: Readiness.Env, v: View): View {
    Answered(v, ReadinessOf(base, v))
  }

  function Answered(v: View, judged: Result<Readiness.Row, Readiness.EvaluateError>): View {
    if !News(v.readiness, judged) then v
    else v.(device := Readiness.Led(v.device, judged.value), readiness := v.readiness + [judged.value])
  }

  ghost function VisitOne(env: Env, base: Readiness.Env, v: View): View {
    Reread(base, Rejudged(env, v))
  }

  // ---- the pass over the tables --------------------------------------------

  datatype Tables = Tables(compliance: Compliance.Stored, judgedAt: map<nat, int>,
                           readiness: map<nat, seq<Readiness.Row>>, told: seq<nat>)

  ghost function ViewOf(t: Tables, id: nat): View
    requires id in t.compliance.devices
  {
    View(t.compliance.devices[id], HistoryOf(t.compliance, id), Lookup(t.judgedAt, id),
         if id in t.readiness then t.readiness[id] else [])
  }

  /** The two compliance calls, on the rows of one device and on the rest of the tables. */
  lemma RejudgedRows(env: Env, s: Stored, id: nat)
    requires id in s.devices
    ensures var d := Settle(env, s.devices[id]);
            var row, t := VerdictOf(env, d), Evaluated(env, Moved(env, s, id), id);
            && t.devices == s.devices[id := Settle(env, d)]
            && HistoryOf(t, id) == Extended(HistoryOf(s, id), row)
            && |t.audited| == |s.audited| + (if Repeats(HistoryOf(s, id), row) then 0 else 1)
            && forall other :: other != id ==> HistoryOf(t, other) == HistoryOf(s, other)
  {
    var m := Moved(env, s, id);
    MovingSettles(env, s, id);
    MovedKeepsHistory(env, s, id);
    MovingSettles(env, m, id);
    MovedKeepsHistory(env, m, id);
    RecordedRows(Moved(env, m, id), s, id, VerdictOf(env, m.devices[id]));
  }

  lemma RecordedRows(m: Stored, s: Stored, id: nat, row: VerdictRow)
    requires m.history == s.history && m.audited == s.audited
    ensures var t := Recorded(m, id, row);
            && t.devices == m.devices
            && HistoryOf(t, id) == Extended(HistoryOf(s, id), row)
            && |t.audited| == |s.audited| + (if Repeats(HistoryOf(s, id), row) then 0 else 1)
            && forall other :: other != id ==> HistoryOf(t, other) == HistoryOf(s, other)
  {
    assert HistoryOf(m, id) == HistoryOf(s, id);
    assert forall other :: HistoryOf(m, other) == HistoryOf(s, other);
  }

  /** Both compliance calls on the tables; a new row is stamped with the time. */
  ghost function RejudgedTables(env: Env, t: Tables, id: nat): Tables {
    Stamped(t, Evaluated(env, Moved(env, t.compliance, id), id), id, env.now)
  }

  function Stamped(t: Tables, c: Compliance.Stored, id: nat, now: int): Tables {
    var news := |c.audited| > |t.compliance.audited|;
    t.(compliance := c, judgedAt := if news then t.judgedAt[id := now] else t.judgedAt)
  }

  /** The readiness call on the tables: it reads the latest verdict, and it writes the shared device table. */
  ghost function RereadTables(base: Readiness.Env, t: Tables, id: nat): Tables {
    var inputs := Inputs(base, id, LatestRow(HistoryOf(t.compliance, id), Lookup(t.judgedAt, id)));
    var r := Readiness.Evaluated(inputs, Readiness.Stored(t.compliance.devices, t.readiness, t.told), id);
    Tables(t.compliance.(devices := r.devices), t.judgedAt, r.history, r.audited)
  }

  ghost predicate Shared(t: Tables, id: nat) {
    WellKeyed(t.compliance.devices) && id in t.compliance.devices
  }

  lemma RejudgedView(env: Env, t: Tables, id: nat)
    requires Shared(t, id)
    ensures var after := RejudgedTables(env, t, id);
            && Shared(after, id) && after.compliance.devices.Keys == t.compliance.devices.Keys
            && ViewOf(after, id) == Rejudged(env, ViewOf(t, id))
            && forall other :: other in t.compliance.devices && other != id ==> ViewOf(after, other) == ViewOf(t, other)
  {
    var d := Settle(env, t.compliance.devices[id]);
    var c := Evaluated(env, Moved(env, t.compliance, id), id);
    RejudgedRows(env, t.compliance, id);
    StampedView(t, c, id, Settle(env, d), VerdictOf(env, d), env.now);
  }

  lemma StampedView(t: Tables, c: Compliance.Stored, id: nat, d: Device, row: VerdictRow, now: int)
    requires id in t.compliance.devices && c.devices == t.compliance.devices[id := d]
    requires HistoryOf(c, id) == Extended(HistoryOf(t.compliance, id), row)
    requires |c.audited| == |t.compliance.audited| + (if Repeats(HistoryOf(t.compliance, id), row) then 0 else 1)
    requires forall other :: other != id ==> HistoryOf(c, other) == HistoryOf(t.compliance, other)
    ensures var after := Stamped(t, c, id, now);
            && ViewOf(after, id) == WithVerdict(ViewOf(t, id), d, row, now)
            && forall other :: other in t.compliance.devices && other != id ==> ViewOf(after, other) == ViewOf(t, other)
  {
  }

  lemma RereadView(base: Readiness.Env, t: Tables, id: nat)
    requires Shared(t, id)
    ensures var after := RereadTables(base, t, id);
            && Shared(after, id) && after.compliance.devices.Keys == t.compliance.devices.Keys
            && ViewOf(after, id) == Reread(base, ViewOf(t, id))
            && forall other :: other in t.compliance.devices && other != id ==> ViewOf(after, other) == ViewOf(t, other)
  {
    assert ViewOf(t, id).device.id == id;
  }

  /** A visit changes the rows of its device only, and changes them as `VisitOne` says. */
  lemma VisitedView(env: Env, base: Readiness.Env, t: Tables, id: nat)
    requires Shared(t, id)
    ensures var after := RereadTables(base, RejudgedTables(env, t, id), id);
            && Shared(after, id) && after.compliance.devices.Keys == t.compliance.devices.Keys
            && ViewOf(after, id) == VisitOne(env, base, ViewOf(t, id))
            && forall other :: other in t.compliance.devices && other != id ==> ViewOf(after, other) == ViewOf(t, other)
  {
    RejudgedView(env, t, id);
    RereadView(base, RejudgedTables(env, t, id), id);
  }

  /** What a visit would make of each device. */
  ghost function VisitEach(env: Env, base: Readiness.Env, start: Tables): map<nat, View> {
    map id | id in start.compliance.devices :: VisitOne(env, base, ViewOf(start, id))
  }

  ghost predicate Treated(visited: map<nat, View>, start: Tables, t: Tables, done: set<nat>, id: nat)
    requires id in start.compliance.devices && id in t.compliance.devices && id in visited
  {
    ViewOf(t, id) == if id in done then visited[id] else ViewOf(start, id)
  }

  ghost predicate AllTreated(visited: map<nat, View>, start: Tables, t: Tables, done: set<nat>) {
    && t.compliance.devices.Keys == start.compliance.devices.Keys == visited.Keys
    && forall id {:trigger Treated(visited, start, t, done, id)} | id in start.compliance.devices ::
         Treated(visited, start, t, done, id)
  }

  /** This device was visited if the pass is through with it, and otherwise is as it was. */
  ghost predicate Through(env: Env, base: Readiness.Env, start: Tables, t: Tables, done: set<nat>, id: nat)
    requires id in start.compliance.devices && id in t.compliance.devices
  {
    ViewOf(t, id) == if id in done then VisitOne(env, base, ViewOf(start, id)) else ViewOf(start, id)
  }

  /** The pass has visited these devices and no others. */
  ghost predicate Passed(env: Env, base: Readiness.Env, start: Tables, t: Tables, done: set<nat>) {
    && t.compliance.devices.Keys == start.compliance.devices.Keys
    && forall id {:trigger Through(env, base, start, t, done, id)} | id in start.compliance.devices ::
         Through(env, base, start, t, done, id)
  }

  lemma ThroughIsTreated(env: Env, base: Readiness.Env, start: Tables, t: Tables, done: set<nat>, id: nat)
    requires id in start.compliance.devices && id in t.compliance.devices
    ensures id in VisitEach(env, base, start)
    ensures Through(env, base, start, t, done, id) <==> Treated(VisitEach(env, base, start), start, t, done, id)
  {
  }

  lemma PassedIsAllTreated(env: Env, base: Readiness.Env, start: Tables, t: Tables, done: set<nat>)
    requires t.compliance.devices.Keys == start.compliance.devices.Keys
    ensures Passed(env, base, start, t, done) ==> AllTreated(VisitEach(env, base, start), start, t, done)
    ensures AllTreated(VisitEach(env, base, start), start, t, done) ==> Passed(env, base, start, t, done)
  {
    if Passed(env, base, start, t, done) {
      forall id | id in start.compliance.devices ensures Treated(VisitEach(env, base, start), start, t, done, id) {
        assert Through(env, base, start, t, done, id);
        ThroughIsTreated(env, base, start, t, done, id);
      }
    }
    if AllTreated(VisitEach(env, base, start), start, t, done) {
      forall id | id in start.compliance.devices ensures Through(env, base, start, t, done, id) {
        assert Treated(VisitEach(env, base, start), start, t, done, id);
        ThroughIsTreated(env, base, start, t, done, id);
      }
    }
  }

  lemma NothingPassed(env: Env, base: Readiness.Env, t: Tables)
    ensures Passed(env, base, t, t, {})
  {
  }

  lemma PassedOneMore(env: Env, base: Readiness.Env, start: Tables, t: Tables, done: set<nat>, id: nat)
    requires Passed(env, base, start, t, done) && Shared(t, id) && id !in done
    ensures var after := RereadTables(base, RejudgedTables(env, t, id), id);
            Shared(after, id) && Passed(env, base, start, after, done + {id})
  {
    var after := RereadTables(base, RejudgedTables(env, t, id), id);
    VisitedView(env, base, t, id);
    assert Through(env, base, start, t, done, id);
    PassedIsAllTreated(env, base, start, t, done);
    TreatedOneMore(VisitEach(env, base, start), start, t, after, done, id);
    PassedIsAllTreated(env, base, start, after, done + {id});
  }

  lemma TreatedOneMore(visited: map<nat, View>, start: Tables, t: Tables, after: Tables, done: set<nat>, id: nat)
    requires AllTreated(visited, start, t, done) && id in t.compliance.devices && id !in done
    requires after.compliance.devices.Keys == t.compliance.devices.Keys && ViewOf(after, id) == visited[id]
    requires forall other :: other in t.compliance.devices && other != id ==> ViewOf(after, other) == ViewOf(t, other)
    ensures AllTreated(visited, start, after, done + {id})
  {
    forall x | x in start.compliance.devices ensures Treated(visited, start, after, done + {id}, x) {
      assert Treated(visited, start, t, done, x);
      assert x != id ==> ViewOf(after, x) == ViewOf(t, x);
    }
  }

  /** The session that the pass works in. */
  class Session {
    const compliance: ComplianceController
    const readiness: Readiness.ReadinessController
    var judgedAt: map<nat, int>

    function Contents(): Tables
      reads this, compliance, readiness
    {
      Tables(compliance.Tables(), judgedAt, readiness.history, readiness.audited)
    }

    /** Both controllers read and write the same device table. */
    ghost predicate Valid()
      reads this, compliance, readiness
    {
      compliance.devices == readiness.devices && WellKeyed(compliance.devices)
    }

    constructor (compliance: ComplianceController, readiness: Readiness.ReadinessController)
      requires compliance.devices == readiness.devices && WellKeyed(compliance.devices)
      ensures Valid() && this.compliance == compliance && this.readiness == readiness && judgedAt == map[]
    {
      this.compliance, this.readiness, judgedAt := compliance, readiness, map[];
    }

    method Rejudge(env: Env, id: nat)
      requires Valid() && KnownScopes(env.targets) && id in compliance.devices
      modifies this, compliance, readiness`devices
      ensures Valid() && compliance.devices.Keys == old(compliance.devices).Keys
      ensures Contents() == RejudgedTables(env, old(Contents()), id)
    {
      MovedKeepsHistory(env, compliance.Tables(), id);
      var assessed := compliance.AssessDevice(env, id);
      var news := compliance.Evaluate(env, id);
      if news.value {
        judgedAt := judgedAt[id := env.now];
      }
      readiness.devices := compliance.devices;
    }

    /** An error of the readiness judgement is swallowed: it leaves the tables alone. */
    method Reread(base: Readiness.Env, id: nat)
      requires Valid() && Readiness.CatalogOk(base) && id in compliance.devices
      modifies readiness, compliance`devices
      ensures Valid() && compliance.devices.Keys == old(compliance.devices).Keys
      ensures Contents() == RereadTables(base, old(Contents()), id)
    {
      var verdicts := if id in compliance.history then compliance.history[id] else [];
      var inputs := Inputs(base, id, LatestRow(verdicts, Lookup(judgedAt, id)));
      var outcome := readiness.Evaluate(inputs, id);
      compliance.devices := readiness.devices;
    }

    method Visit(env: Env, base: Readiness.Env, ghost start: Tables, ghost done: set<nat>, id: nat)
      requires Valid() && KnownScopes(env.targets) && Readiness.CatalogOk(base) && id in compliance.devices
      requires Passed(env, base, start, Contents(), done) && id !in done
      modifies this, compliance, readiness
      ensures Valid() && Passed(env, base, start, Contents(), done + {id})
    {
      PassedOneMore(env, base, start, Contents(), done, id);
      Rejudge(env, id);
      Reread(base, id);
    }

    /** The loop over the affected set. */
    method Reevaluate(env: Env, base: Readiness.Env, affected: set<nat>) returns (count: nat)
      requires Valid() && KnownScopes(env.targets) && Readiness.CatalogOk(base) && affected <= compliance.devices.Keys
      modifies this, compliance, readiness
      ensures Valid() && count == |affected|
      ensures Passed(env, base, old(Contents()), Contents(), affected)
    {
      count := 0;
      var rest := affected;
      ghost var start, done: set<nat> := Contents(), {};
      NothingPassed(env, base, start);
      while rest != {}
        invariant Valid() && affected <= compliance.devices.Keys
        invariant done == affected - rest && rest <= affected && count + |rest| == |affected|
        invariant Passed(env, base, start, Contents(), done)
        decreases |rest|
      {
        var id :| id in rest;
        Visit(env, base, start, done, id);
        done := done + {id};
        rest := rest - {id};
        count := count + 1;
      }
      assert done == affected;
    }
  }

  // ---- what a visit leaves -------------------------------------------------

  lemma RepeatedTells(v: View, d: Device, row: VerdictRow, now: int)
    ensures Repeats(WithVerdict(v, d, row, now).verdicts, row) && Tells(WithVerdict(v, d, row, now).verdicts, row)
  {
    if Repeats(v.verdicts, row) {
      Sorting.SortPermutes(v.verdicts[|v.verdicts| - 1].actions, ByKind);
      Sorting.SortPermutes(row.actions, ByKind);
    }
  }

  lemma AnswerIsTold(j: View, judged: Result<Readiness.Row, Readiness.EvaluateError>)
    requires judged.Ok? && judged.value.state == Readiness.NotApplicable ==> judged.value.blockers == []
    ensures Answered(j, judged).verdicts == j.verdicts
    ensures if judged.Ok? then Readiness.Unchanged(Answered(j, judged).readiness, judged.value)
            else Answered(j, judged).readiness == j.readiness
  {
  }

  /**
   A visit leaves both histories telling the truth: the latest verdict is that on the device at its
   assessed lifecycle, so that judging it once more would be silent, and the latest readiness row
   repeats the readiness judgement, unless the latest verdict is too old for one.
  */
  lemma VisitTellsTheTruth(env: Env, base: Readiness.Env, v: View)
    ensures var w, judged := VisitOne(env, base, v), ReadinessOf(base, Rejudged(env, v));
            && Repeats(w.verdicts, VerdictOf(env, Settle(env, v.device)))
            && Tells(w.verdicts, VerdictOf(env, Settle(env, v.device)))
            && (judged.Ok? ==> Readiness.Unchanged(w.readiness, judged.value))
            && (judged.Err? ==> w.readiness == v.readiness)
  {
    var d, j := Settle(env, v.device), Rejudged(env, v);
    RepeatedTells(v, Settle(env, d), VerdictOf(env, d), env.now);
    ReadinessTheorems.NotApplicableListsNothing(Inputs(base, j.device.id, LatestRow(j.verdicts, j.judgedAt)), j.device);
    AnswerIsTold(j, ReadinessOf(base, j));
  }

  /** The compliance row that the readiness judgement of a visit reads: the latest verdict, when it was stored. */
  ghost predicate ReadsLatest(inputs: Readiness.Env, base: Readiness.Env, id: nat, verdicts: seq<VerdictRow>,
                              judgedAt: Option<int>)
  {
    inputs == base.(compliance :=
                      if verdicts == [] || judgedAt.None? then map[]
                      else
                        var last := verdicts[|verdicts| - 1];
                        map[id := Readiness.ComplianceRow(|verdicts| - 1, last.state, last.targetVersion,
                                                          last.observedVersion, judgedAt.value)])
  }

  /** What the answer of the readiness judgement does to the device and its readiness rows. */
  ghost predicate Answers(v: View, w: View, d: Device, judged: Result<Readiness.Row, Readiness.EvaluateError>) {
    if judged.Err? || Readiness.SaysNothingNew(v.readiness, judged.value) then
      w.readiness == v.readiness && w.device == d
    else
      && w.readiness == v.readiness + [judged.value]
      && w.device == match judged.value.state
                     case ReadyForUplift => d.(lifecycle := "ready_for_uplift")
                     case Blocked => d.(lifecycle := "blocked")
                     case NotApplicable => d
  }

  /**
   A visit from beginning to end. The device is assessed and judged at its assessed lifecycle; a verdict
   that says something new is stored with the time; the device is assessed once more; and the readiness
   judgement reads the latest verdict, and leads the lifecycle on if its answer is new.
  */
  lemma VisitExactly(env: Env, base: Readiness.Env, v: View)
    ensures var w := VisitOne(env, base, v);
            var once := v.device.(lifecycle := StateName(AssessIn(env, v.device).state));
            var twice := once.(lifecycle := StateName(AssessIn(env, once).state));
            var row := VerdictOf(env, once);
            && (if SaysNothingNew(v.verdicts, row) then w.verdicts == v.verdicts && w.judgedAt == v.judgedAt
                else w.verdicts == v.verdicts + [row] && w.judgedAt == Some(env.now))
            && exists inputs ::
                 && ReadsLatest(inputs, base, v.device.id, w.verdicts, w.judgedAt)
                 && Answers(v, w, twice, Readiness.Verdict(inputs, twice))
  {
    var once := v.device.(lifecycle := StateName(AssessIn(env, v.device).state));
    var j := Rejudged(env, v);
    var inputs := Inputs(base, j.device.id, LatestRow(j.verdicts, j.judgedAt));
    assert Settle(env, v.device) == once;
    RepeatsExactly(v.verdicts, VerdictOf(env, once));
    assert ReadsLatest(inputs, base, v.device.id, j.verdicts, j.judgedAt);
    AnswersExactly(j, ReadinessOf(base, j));
    assert VisitOne(env, base, v).verdicts == j.verdicts && VisitOne(env, base, v).judgedAt == j.judgedAt;
  }

  lemma RepeatsExactly(history: seq<VerdictRow>, row: VerdictRow)
    ensures Repeats(history, row) <==> SaysNothingNew(history, row)
  {
    if history != [] {
      var last := history[|history| - 1];
      assert SameReasons(last.reasons, row.reasons) <==>
             |last.reasons| == |row.reasons| &&
             forall i :: 0 <= i < |row.reasons| ==>
               last.reasons[i].kind == row.reasons[i].kind && last.reasons[i].refId == row.reasons[i].refId &&
               last.reasons[i].detail == row.reasons[i].detail;
    }
  }

  lemma AnswersExactly(j: View, judged: Result<Readiness.Row, Readiness.EvaluateError>)
    ensures Answers(j, Answered(j, judged), j.device, judged)
  {
    if judged.Ok? {
      Readiness.UnchangedExactly(j.readiness, judged.value);
    }
  }

  lemma VerdictIgnoresLifecycle(env: Env, d: Device, state: string)
    requires ScopesIgnoreLifecycle(env.targets)
    ensures VerdictOf(env, d.(lifecycle := state)) == VerdictOf(env, d)
    ensures Settle(env, d.(lifecycle := state)) == Settle(env, d)
  {
    AssessmentIgnoresLifecycle(env, d, state);
    ClassifyIgnoresLifecycle(env, d, state, AssessIn(env, d));
  }

  /** When no scope reads the lifecycle, the latest verdict is that on the device as the pass leaves it. */
  lemma AffectedDevicesAreCurrent(env: Env, base: Readiness.Env, v: View)
    requires ScopesIgnoreLifecycle(env.targets)
    ensures var w := VisitOne(env, base, v); Tells(w.verdicts, VerdictOf(env, w.device))
  {
    var w := VisitOne(env, base, v);
    VisitTellsTheTruth(env, base, v);
    VerdictIgnoresLifecycle(env, v.device, w.device.lifecycle);
    VerdictIgnoresLifecycle(env, v.device, Settle(env, v.device).lifecycle);
    assert w.device == v.device.(lifecycle := w.device.lifecycle);
  }

  // ---- the lifecycle after a visit -----------------------------------------

  /** The lifecycle shows the latest readiness row if that is about an uplift, and else the latest verdict. */
  ghost predicate InStep(v: View) {
    v.verdicts != [] &&
    var state := StateName(v.verdicts[|v.verdicts| - 1].state);
    v.device.lifecycle == if v.readiness == [] then state
                          else Readiness.LifecycleAfter(state, v.readiness[|v.readiness| - 1])
  }

  /** The readiness history ends in a row that is about an uplift. */
  ghost predicate Upliftable(readiness: seq<Readiness.Row>) {
    readiness != [] && readiness[|readiness| - 1].state != Readiness.NotApplicable
  }

  lemma StateNamesAreNotUplifts(s: State)
    ensures StateName(s) != "ready_for_uplift" && StateName(s) != "blocked"
  {
    assert "blocked"[0] == 'b' && "ready_for_uplift"[0] == 'r';
  }

  lemma RejudgedShowsTheVerdict(env: Env, v: View)
    ensures var j := Rejudged(env, v);
            j.verdicts != [] && j.device.lifecycle == StateName(j.verdicts[|j.verdicts| - 1].state)
  {
    var d := Settle(env, v.device);
    VerdictIsLatest(v, Settle(env, d), VerdictOf(env, d), env.now);
  }

  lemma VerdictIsLatest(v: View, d: Device, row: VerdictRow, now: int)
    ensures var j := WithVerdict(v, d, row, now); j.verdicts != [] && j.verdicts[|j.verdicts| - 1].state == row.state
  {
  }

  /**
   Assessment puts the lifecycle back to the compliance state, and only a new readiness row leads it
   on. So a visit leaves the lifecycle in step with the readiness history exactly when the judgement
   says something new or is not about an uplift; or, if the verdict is too old to be judged, when the
   history does not end in a row about an uplift.
  */
  lemma LifecycleInStepIff(env: Env, base: Readiness.Env, v: View)
    ensures var w, judged := VisitOne(env, base, v), ReadinessOf(base, Rejudged(env, v));
            InStep(w) <==>
              match judged
              case Err(_) => !Upliftable(v.readiness)
              case Ok(row) => row.state == Readiness.NotApplicable || !Readiness.Unchanged(v.readiness, row)
  {
    RejudgedShowsTheVerdict(env, v);
    AnsweredInStepIff(Rejudged(env, v), ReadinessOf(base, Rejudged(env, v)));
  }

  lemma AnsweredInStepIff(j: View, judged: Result<Readiness.Row, Readiness.EvaluateError>)
    requires j.verdicts != [] && j.device.lifecycle == StateName(j.verdicts[|j.verdicts| - 1].state)
    ensures InStep(Answered(j, judged)) <==>
              match judged
              case Err(_) => !Upliftable(j.readiness)
              case Ok(row) => row.state == Readiness.NotApplicable || !Readiness.Unchanged(j.readiness, row)
  {
    StateNamesAreNotUplifts(j.verdicts[|j.verdicts| - 1].state);
  }

  lemma RejudgingAgain(env: Env, v: View, w: View)
    requires ScopesIgnoreLifecycle(env.targets)
    requires var j := Rejudged(env, v);
             w == j.(device := j.device.(lifecycle := w.device.lifecycle), readiness := w.readiness)
    ensures Rejudged(env, w) == Rejudged(env, v).(readiness := w.readiness)
  {
    var d := Settle(env, v.device);
    VerdictIgnoresLifecycle(env, v.device, w.device.lifecycle);
    assert w.device == v.device.(lifecycle := w.device.lifecycle);
    VerdictTwice(v, w, Settle(env, d), VerdictOf(env, d), env.now);
  }

  lemma VerdictTwice(v: View, w: View, d: Device, row: VerdictRow, now: int)
    requires var j := WithVerdict(v, d, row, now); w.verdicts == j.verdicts && w.judgedAt == j.judgedAt
    ensures WithVerdict(w, d, row, now) == WithVerdict(v, d, row, now).(readiness := w.readiness)
  {
  }

  /**
   So a second pass over the same inputs, which adds no row, undoes what the first one showed: of a
   device that is ready or blocked only the compliance state is left in the lifecycle.
  */
  lemma SecondPassDropsTheLead(env: Env, base: Readiness.Env, v: View)
    requires ScopesIgnoreLifecycle(env.targets)
    requires var judged := ReadinessOf(base, Rejudged(env, v));
             judged.Ok? && judged.value.state != Readiness.NotApplicable
    ensures var once := VisitOne(env, base, v); var twice := VisitOne(env, base, once);
            && twice.verdicts == once.verdicts && twice.readiness == once.readiness && Upliftable(twice.readiness)
            && twice.device.lifecycle == "outside_target" && !InStep(twice)
  {
    var j := Rejudged(env, v);
    var once, judged := VisitOne(env, base, v), ReadinessOf(base, j);
    AnsweredTwice(j, judged);
    RejudgingAgain(env, v, once);
    assert ReadinessOf(base, j.(readiness := once.readiness)) == judged;
    RejudgedShowsTheVerdict(env, v);
    UpliftNeedsOutside(base, j);
    AnsweredInStepIff(j.(readiness := once.readiness), judged);
  }

  lemma AnsweredTwice(j: View, judged: Result<Readiness.Row, Readiness.EvaluateError>)
    requires judged.Ok? && judged.value.state != Readiness.NotApplicable
    ensures var once := Answered(j, judged);
            && Readiness.Unchanged(once.readiness, judged.value) && Upliftable(once.readiness)
            && Answered(j.(readiness := once.readiness), judged) == j.(readiness := once.readiness)
  {
  }

  lemma UpliftNeedsOutside(base: Readiness.Env, j: View)
    requires var judged := ReadinessOf(base, j); judged.Ok? && judged.value.state != Readiness.NotApplicable
    ensures j.verdicts != [] && j.verdicts[|j.verdicts| - 1].state == Readiness.OutsideTarget
  {
  }

  lemma FreshVerdictIsJudged(env: Env, base: Readiness.Env, v: View)
    requires v.verdicts == [] && base.now == env.now && v.device.id !in base.activeException
    requires AssessIn(env, Settle(env, v.device)).state == Readiness.OutsideTarget
    ensures var judged := ReadinessOf(base, Rejudged(env, v));
            judged.Ok? && judged.value.state != Readiness.NotApplicable
  {
    var j := Rejudged(env, v);
    ReadinessTheorems.ReadyExactlyWhen(Inputs(base, j.device.id, LatestRow(j.verdicts, j.judgedAt)), j.device);
  }

  /** Any new device that is outside its target and under no exception loses its lead that way. */
  lemma NewDeviceLosesItsLead(env: Env, base: Readiness.Env, v: View)
    requires ScopesIgnoreLifecycle(env.targets) && AssessIn(env, v.device).state == Readiness.OutsideTarget
    requires v.verdicts == [] && v.readiness == [] && base.now == env.now && v.device.id !in base.activeException
    ensures var once := VisitOne(env, base, v);
            InStep(once) && Upliftable(once.readiness) && !InStep(VisitOne(env, base, once))
  {
    AssessmentIgnoresLifecycle(env, v.device, Settle(env, v.device).lifecycle);
    FreshVerdictIsJudged(env, base, v);
    LifecycleInStepIff(env, base, v);
    SecondPassDropsTheLead(env, base, v);
  }

  // ---- how many transitions a visit writes ---------------------------------

  lemma MovingIsOneTransition(env: Env, s: Stored, id: nat)
    requires id in s.devices
    ensures var d := s.devices[id];
            |Moved(env, s, id).transitions| == |s.transitions| + (if Settle(env, d) == d then 0 else 1)
  {
  }

  /**
   The two assessments of a visit write at most one transition between them exactly when one of them
   finds the lifecycle as it should be; scopes that do not read the lifecycle ensure that.
  */
  lemma AtMostOneTransitionIff(env: Env, s: Stored, id: nat)
    requires id in s.devices
    ensures var d, t := s.devices[id], Evaluated(env, Moved(env, s, id), id);
            |t.transitions| <= |s.transitions| + 1 <==>
            Settle(env, d) == d || Settle(env, Settle(env, d)) == Settle(env, d)
    ensures ScopesIgnoreLifecycle(env.targets) ==>
              |Evaluated(env, Moved(env, s, id), id).transitions| <= |s.transitions| + 1
  {
    var m := Moved(env, s, id);
    MovingSettles(env, s, id);
    MovingIsOneTransition(env, s, id);
    MovingIsOneTransition(env, m, id);
    RecordingIsLocal(Moved(env, m, id), id, VerdictOf(env, m.devices[id]));
    if ScopesIgnoreLifecycle(env.targets) {
      SettlingKeepsTheVerdict(env, s.devices[id]);
    }
  }

  /** A scope that reads the lifecycle can make one visit write two transitions that cancel out. */
  lemma OneVisitTwoTransitions(s: Stored)
    requires s.devices == map[0 := LoopDevice("classified")]
    ensures var t := Evaluated(LoopEnv(), Moved(LoopEnv(), s, 0), 0);
            t.devices == s.devices && |t.transitions| == |s.transitions| + 2
  {
    var m := Moved(LoopEnv(), s, 0);
    LoopMoves(s, 0);
    LoopMoves(m, 1);
    RecordingIsLocal(Moved(LoopEnv(), m, 0), 0, VerdictOf(LoopEnv(), m.devices[0]));
  }
}
