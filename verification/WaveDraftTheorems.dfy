/** Preview agrees with draft; an idempotency key labels at most one wave and is honoured within its TTL. */
module WaveDraftTheorems {
  import opened Prelude
  import opened Sorting
  import opened UpliftGovernance
  import opened WaveDraft
  import UpliftRuns
  import ScopeSelector

  /** Every device in scope is either a candidate or skipped with the verdict it has, and nothing else is. */
  lemma {:induction false} SkippedAreTheRest(w: World, req: DraftRequest, devices: seq<DeviceRow>)
    ensures forall x :: x in SkippedOf(w, req, devices) <==>
              exists d :: d in devices && InScope(req, d) && !Ready(w, d.id) &&
                x == Skipped(d.id, CurrentState(w, d.id))
  {
    if devices == [] {
    } else {
      var most, last := devices[..|devices| - 1], devices[|devices| - 1];
      SkippedAreTheRest(w, req, most);
      assert devices == most + [last];
      assert forall d :: d in devices <==> d in most || d == last;
    }
  }

  lemma NoObstacleIffNoWarning(w: World, req: DraftRequest)
    ensures var p := PreviewOf(w, req);
            Obstacle(w, req).None? <==> p.Ok? && p.value.warnings == [] && p.value.proposed <= w.limits.maxDevices
  {
  }

  lemma FreshRequest(w: World, waves: map<WaveId, Wave>, req: DraftRequest, newId: WaveId)
    requires Fresh(waves, req)
    ensures var (r, after) := DraftRequestOf(w, waves, req, newId);
            && (r.Ok? <==> Obstacle(w, req).None?)
            && after == (if r.Ok? then waves[newId := DraftedWave(w, req)] else waves)
  {
    assert forall id :: !Replays(w, waves, req, id);
    assert Released(waves, req.plan, req.idempotencyKey) == waves;
  }

  /** What the preview shows at a row is what the draft stores at that position. */
  lemma MembersAreThePreviewedRows(w: World, req: DraftRequest)
    requires ScopeSelector.KnownKeys(req.selector)
    ensures var members, rows := DraftedWave(w, req).members, PreviewOf(w, req).value.rows;
            && |members| == |rows| == PreviewOf(w, req).value.proposed
            && forall i :: 0 <= i < |rows| ==>
                 && members[i].device == rows[i].device && members[i].position == i + 1 && rows[i].state == ReadyState
                 && members[i].snapshotTarget == rows[i].targetVersion
                 && members[i].snapshotObserved == rows[i].observedVersion
  {
    OrderedCandidates(w, req);
    var eligible := SortById(Eligible(w, req, w.devices));
    assert DraftedWave(w, req).members == MembersFor(w, eligible);
    assert PreviewOf(w, req).value.rows == RowsFor(w, eligible);
    forall i | 0 <= i < |eligible| ensures Ready(w, eligible[i].id) {
      assert eligible[i] in eligible;
    }
  }

  /**
   A fresh draft succeeds exactly when the preview raises no warning and proposes no more devices
   than the cap; it then stores the previewed devices, in order, at positions 1 to n, all of them
   ready, with the previewed versions as their snapshot. Otherwise it stores nothing.
  */
  lemma PreviewAgreesWithDraft(w: World, waves: map<WaveId, Wave>, req: DraftRequest, newId: WaveId)
    requires Fresh(waves, req) && newId !in waves
    ensures var (r, after) := DraftRequestOf(w, waves, req, newId);
            var p := PreviewOf(w, req);
            && (r.Ok? <==> p.Ok? && p.value.warnings == [] && p.value.proposed <= w.limits.maxDevices)
            && (r.Err? ==> after == waves)
            && (r.Ok? ==>
                  && after.Keys == waves.Keys + {newId}
                  && (forall x :: x in waves ==> after[x] == waves[x])
                  && |after[newId].members| == |p.value.rows| == p.value.proposed
                  && forall i :: 0 <= i < |p.value.rows| ==>
                       && after[newId].members[i].device == p.value.rows[i].device
                       && after[newId].members[i].position == i + 1
                       && p.value.rows[i].state == ReadyState
                       && after[newId].members[i].snapshotTarget == p.value.rows[i].targetVersion
                       && after[newId].members[i].snapshotObserved == p.value.rows[i].observedVersion)
  {
    FreshRequest(w, waves, req, newId);
    NoObstacleIffNoWarning(w, req);
    if Obstacle(w, req).None? {
      MembersAreThePreviewedRows(w, req);
    }
  }

  /** A drafted wave holds exactly the devices in scope that are ready, in ascending order of their ids. */
  lemma DraftHoldsExactlyTheReadyDevices(w: World, req: DraftRequest, d: DeviceId)
    ensures IsMember(DraftedWave(w, req).members, d) <==>
            exists row :: row in w.devices && row.id == d && InScope(req, row) && Ready(w, d)
    ensures forall i, j :: 0 <= i < j < |DraftedWave(w, req).members| ==>
              DraftedWave(w, req).members[i].device <= DraftedWave(w, req).members[j].device
  {
    OrderedCandidates(w, req);
    var eligible := SortById(Eligible(w, req, w.devices));
    var members := DraftedWave(w, req).members;
    assert forall i :: 0 <= i < |members| ==> members[i].device == eligible[i].id && eligible[i] in eligible;
    if IsMember(members, d) {
      var i :| 0 <= i < |members| && members[i].device == d;
      assert eligible[i] in w.devices;
    }
    if row :| row in w.devices && row.id == d && InScope(req, row) && Ready(w, d) {
      var i :| 0 <= i < |eligible| && eligible[i] == row;
      assert members[i].device == d;
    }
  }

  // ---- idempotency ---------------------------------------------------------

  datatype Call = Call(world: World, request: DraftRequest, newId: WaveId)

  /** A sequence of draft requests against the same table; new ids never collide with stored ones. */
  ghost function RunDrafts(waves: map<WaveId, Wave>, calls: seq<Call>): map<WaveId, Wave> {
    if calls == [] then waves
    else
      var before := RunDrafts(waves, calls[..|calls| - 1]);
      var c := calls[|calls| - 1];
      if c.newId in before then before else DraftRequestOf(c.world, before, c.request, c.newId).1
  }

  lemma RequestKeepsKeysUnique(w: World, waves: map<WaveId, Wave>, req: DraftRequest, newId: WaveId)
    requires KeysUnique(waves) && newId !in waves
    ensures KeysUnique(DraftRequestOf(w, waves, req, newId).1)
  {
    var after := DraftRequestOf(w, waves, req, newId).1;
    if after != waves {
      forall x, y, plan, key | Labels(after, x, plan, key) && Labels(after, y, plan, key) ensures x == y {
        if x != newId && y != newId {
          assert Labels(waves, x, plan, key) && Labels(waves, y, plan, key);
        }
      }
    }
  }

  /** Over every sequence of drafts a plan and an idempotency key label at most one wave. */
  lemma {:induction false} KeysUniqueEveryRun(calls: seq<Call>)
    ensures KeysUnique(RunDrafts(map[], calls))
  {
    if calls == [] {
    } else {
      KeysUniqueEveryRun(calls[..|calls| - 1]);
      var before, c := RunDrafts(map[], calls[..|calls| - 1]), calls[|calls| - 1];
      if c.newId !in before {
        RequestKeepsKeysUnique(c.world, before, c.request, c.newId);
      }
    }
  }

  /**
   A repeat within the TTL answers with the labelled wave and writes nothing, whatever else the
   request says. A successful repeat after the TTL adds one wave that carries the key and takes
   nothing from the old one but its key; a failed one changes nothing.
  */
  lemma RepeatedRequest(w: World, waves: map<WaveId, Wave>, req: DraftRequest, old_: WaveId, newId: WaveId)
    requires KeysUnique(waves) && newId !in waves && req.idempotencyKey.Some?
    requires Labels(waves, old_, req.plan, req.idempotencyKey.value)
    ensures var (r, after) := DraftRequestOf(w, waves, req, newId);
            if w.now - waves[old_].draftedAt <= w.limits.idempotencyTtl then
              r == Ok(Outcome(old_, waves[old_], [], true)) && after == waves
            else if r.Err? then after == waves
            else
              && after.Keys == waves.Keys + {newId}
              && after[old_] == waves[old_].(idempotencyKey := None)
              && Labels(after, newId, req.plan, req.idempotencyKey.value)
              && (forall x :: x in waves && x != old_ ==> after[x] == waves[x])
  {
    if w.now - waves[old_].draftedAt <= w.limits.idempotencyTtl {
      assert Replays(w, waves, req, old_);
    } else {
      forall id ensures !Replays(w, waves, req, id) {
        if Labels(waves, id, req.plan, req.idempotencyKey.value) {
          assert id == old_;
        }
      }
    }
  }

  /** A label only ever moves when the same plan and key are used again after the TTL. */
  lemma OtherRequestsKeepTheLabel(w: World, waves: map<WaveId, Wave>, req: DraftRequest, newId: WaveId,
                                  id: WaveId, plan: nat, key: string)
    requires KeysUnique(waves) && newId !in waves && Labels(waves, id, plan, key)
    requires req.plan != plan || req.idempotencyKey != Some(key) ||
             w.now - waves[id].draftedAt <= w.limits.idempotencyTtl
    ensures var after := DraftRequestOf(w, waves, req, newId).1;
            Labels(after, id, plan, key) && after[id] == waves[id]
  {
    if req.plan == plan && req.idempotencyKey == Some(key) {
      assert Replays(w, waves, req, id);
    }
  }

  // ---- the link to uplift runs ---------------------------------------------

  /** A request that drafts is a draft step of the governance runs, so their invariants cover it. */
  lemma DraftIsAGovernanceStep(db: Database, w: World, req: DraftRequest, newId: WaveId)
    requires KeysUnique(db.waves) && newId !in db.waves
    requires forall d :: d in w.devices ==> d.id in db.lifecycle
    ensures var (r, after) := DraftRequestOf(w, db.waves, req, newId);
            after == db.waves ||
            (UpliftRuns.FreshDraft(db, after[newId]) &&
             exists released :: after == UpliftRuns.Drafted(db, newId, after[newId], released).waves)
  {
    var (r, after) := DraftRequestOf(w, db.waves, req, newId);
    if after != db.waves {
      var row := after[newId];
      assert row == DraftedWave(w, req);
      forall i | 0 <= i < |row.members| ensures row.members[i].device in db.lifecycle {
        assert IsMember(row.members, row.members[i].device);
        DraftHoldsExactlyTheReadyDevices(w, req, row.members[i].device);
      }
      var released := ReleasedWave(db.waves, req);
      assert after == UpliftRuns.Drafted(db, newId, row, released).waves;
    }
  }

  ghost function ReleasedWave(waves: map<WaveId, Wave>, req: DraftRequest): (r: Option<WaveId>)
    requires KeysUnique(waves)
    ensures r.Some? ==> r.value in waves
    ensures r.Some? ==>
              Released(waves, req.plan, req.idempotencyKey) == waves[r.value := waves[r.value].(idempotencyKey := None)]
    ensures r.None? ==> Released(waves, req.plan, req.idempotencyKey) == waves
  {
    if req.idempotencyKey.Some? && exists id :: Labels(waves, id, req.plan, req.idempotencyKey.value) then
      var id :| Labels(waves, id, req.plan, req.idempotencyKey.value);
      Some(id)
    else None
  }
}
