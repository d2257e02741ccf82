/**
 What follows a catalog load as one call: the scan for affected devices and the pass over them. Whoever
 was in a firmware state, or under a touched scope without tags, has an up-to-date verdict afterwards.
*/
module AfterReload {
  import opened Prelude
  import opened CatalogReload
  import opened CatalogStore
  import opened CatalogLoader
  import opened Prerequisites
  import opened Compliance
  import opened ComplianceTheorems
  import opened ReloadPass
  import Readiness
  import ScopeSelector

  /** The list that the scan walks holds every device of the table once or more, and nothing else. */
  ghost predicate Lists(devices: seq<Device>, table: map<nat, Device>) {
    forall d :: d in devices <==> d.id in table && table[d.id] == d
  }

  /**
   The latest verdict on the device is that at its assessed lifecycle; and if no scope reads the
   lifecycle, that on the device as it is stored now.
  */
  ghost predicate UpToDate(env: Env, before: Device, t: Tables) {
    && before.id in t.compliance.devices
    && Tells(HistoryOf(t.compliance, before.id),
             VerdictOf(env, before.(lifecycle := StateName(AssessIn(env, before).state))))
    && (ScopesIgnoreLifecycle(env.targets) ==>
          Tells(HistoryOf(t.compliance, before.id), VerdictOf(env, t.compliance.devices[before.id])))
  }

  lemma VisitedIsUpToDate(env: Env, base: Readiness.Env, start: Tables, t: Tables, done: set<nat>, id: nat)
    requires Passed(env, base, start, t, done) && Shared(start, id) && id in done
    ensures UpToDate(env, start.compliance.devices[id], t)
  {
    assert Through(env, base, start, t, done, id);
    var v := ViewOf(start, id);
    VisitTellsTheTruth(env, base, v);
    if ScopesIgnoreLifecycle(env.targets) {
      AffectedDevicesAreCurrent(env, base, v);
    }
  }

  /** Everybody who was due is up to date, and everybody else is as before. */
  ghost predicate Reevaluated(env: Env, rules: seq<PrerequisiteRow>, touchedTargets: set<nat>, touchedRules: set<nat>,
                              before: Tables, after: Tables)
  {
    && after.compliance.devices.Keys == before.compliance.devices.Keys
    && forall id {:trigger ViewOf(after, id)} | id in before.compliance.devices ::
         var d := before.compliance.devices[id];
         if Due(d, env.targets, rules, touchedTargets, touchedRules) then UpToDate(env, d, after)
         else ViewOf(after, id) == ViewOf(before, id)
  }

  /** The scope has no tag leaf and covers the device at its stored lifecycle. */
  ghost predicate CoversUntagged(scope: ScopeSelector.Selector, d: Device) {
    && (forall leaf :: leaf in scope ==> !leaf.TaggedWith?)
    && ScopeSelector.Matches(scope, d.facts.(lifecycle := Some(d.lifecycle)))
  }

  /** The devices of the table that are due. */
  ghost function DueIds(table: map<nat, Device>, targets: seq<Target>, rules: seq<PrerequisiteRow>,
                        touchedTargets: set<nat>, touchedRules: set<nat>): set<nat>
  {
    set id | id in table && Due(table[id], targets, rules, touchedTargets, touchedRules)
  }

  lemma ListedAffected(devices: seq<Device>, table: map<nat, Device>, targets: seq<Target>, rules: seq<PrerequisiteRow>,
                       touchedTargets: set<nat>, touchedRules: set<nat>, affected: set<nat>)
    requires Lists(devices, table) && WellKeyed(table)
    requires forall id :: id in affected <==>
               exists i :: 0 <= i < |devices| && devices[i].id == id &&
                 Due(devices[i], targets, rules, touchedTargets, touchedRules)
    ensures affected == DueIds(table, targets, rules, touchedTargets, touchedRules)
  {
    forall id | id in affected ensures id in DueIds(table, targets, rules, touchedTargets, touchedRules) {
      var i :| 0 <= i < |devices| && devices[i].id == id &&
               Due(devices[i], targets, rules, touchedTargets, touchedRules);
      assert devices[i] in devices;
    }
    forall id | id in DueIds(table, targets, rules, touchedTargets, touchedRules) ensures id in affected {
      assert table[id] in devices;
      var i :| 0 <= i < |devices| && devices[i] == table[id];
    }
  }

  lemma PassReevaluates(env: Env, base: Readiness.Env, start: Tables, t: Tables, rules: seq<PrerequisiteRow>,
                        touchedTargets: set<nat>, touchedRules: set<nat>, affected: set<nat>)
    requires Passed(env, base, start, t, affected) && WellKeyed(start.compliance.devices)
    requires affected == DueIds(start.compliance.devices, env.targets, rules, touchedTargets, touchedRules)
    ensures Reevaluated(env, rules, touchedTargets, touchedRules, start, t)
  {
    forall id | id in start.compliance.devices
      ensures var d := start.compliance.devices[id];
              if Due(d, env.targets, rules, touchedTargets, touchedRules) then UpToDate(env, d, t)
              else ViewOf(t, id) == ViewOf(start, id)
    {
      assert Through(env, base, start, t, affected, id);
      if id in affected {
        VisitedIsUpToDate(env, base, start, t, affected, id);
      }
    }
  }

  lemma DueIsUpToDate(env: Env, devices: seq<Device>, rules: seq<PrerequisiteRow>, touchedTargets: set<nat>,
                      touchedRules: set<nat>, before: Tables, after: Tables, d: Device)
    requires Lists(devices, before.compliance.devices) && d in devices
    requires Reevaluated(env, rules, touchedTargets, touchedRules, before, after)
    requires Due(d, env.targets, rules, touchedTargets, touchedRules)
    ensures UpToDate(env, d, after)
  {
    var seen := ViewOf(after, d.id);
  }

  lemma FleetIsUpToDate(env: Env, devices: seq<Device>, rules: seq<PrerequisiteRow>, touchedTargets: set<nat>,
                        touchedRules: set<nat>, before: Tables, after: Tables)
    requires Lists(devices, before.compliance.devices)
    requires Reevaluated(env, rules, touchedTargets, touchedRules, before, after)
    ensures forall d :: d in devices && d.lifecycle in ["target_defined", "compliant", "outside_target", "unknown"] ==>
              UpToDate(env, d, after)
    ensures forall d, t :: d in devices && t in env.targets && t.id in touchedTargets && CoversUntagged(t.body.scope, d)
              ==> UpToDate(env, d, after)
    ensures forall d, r :: d in devices && r in rules && r.id in touchedRules && CoversUntagged(r.body.appliesTo, d)
              ==> UpToDate(env, d, after)
  {
    forall d | d in devices && d.lifecycle in ["target_defined", "compliant", "outside_target", "unknown"]
      ensures UpToDate(env, d, after)
    {
      DueIsUpToDate(env, devices, rules, touchedTargets, touchedRules, before, after, d);
    }
    forall d, t | d in devices && t in env.targets && t.id in touchedTargets && CoversUntagged(t.body.scope, d)
      ensures UpToDate(env, d, after)
    {
      UntaggedScopeIsSeen(t, t.body.scope, touchedTargets, d);
      DueIsUpToDate(env, devices, rules, touchedTargets, touchedRules, before, after, d);
    }
    forall d, r | d in devices && r in rules && r.id in touchedRules && CoversUntagged(r.body.appliesTo, d)
      ensures UpToDate(env, d, after)
    {
      UntaggedScopeIsSeen(r, r.body.appliesTo, touchedRules, d);
      DueIsUpToDate(env, devices, rules, touchedTargets, touchedRules, before, after, d);
    }
  }

  /** Scan and pass. The whole firmware fleet is re-evaluated, and whoever a touched scope without tags covers. */
  method ReevaluateAfterReload(session: Session, env: Env, base: Readiness.Env, devices: seq<Device>,
                               rules: seq<PrerequisiteRow>, touchedTargets: set<nat>, touchedRules: set<nat>)
    returns (count: nat)
    requires session.Valid() && KnownScopes(env.targets) && Readiness.CatalogOk(base)
    requires forall r :: r in rules ==> ScopeSelector.KnownKeys(r.body.appliesTo)
    requires Lists(devices, session.compliance.devices)
    modifies session, session.compliance, session.readiness
    ensures session.Valid()
    ensures count ==
            |DueIds(old(session.compliance.devices), env.targets, rules, touchedTargets, touchedRules)|
    ensures Reevaluated(env, rules, touchedTargets, touchedRules, old(session.Contents()), session.Contents())
    ensures forall d :: d in devices && d.lifecycle in ["target_defined", "compliant", "outside_target", "unknown"] ==>
              UpToDate(env, d, session.Contents())
    ensures forall d, t :: d in devices && t in env.targets && t.id in touchedTargets && CoversUntagged(t.body.scope, d)
              ==> UpToDate(env, d, session.Contents())
    ensures forall d, r :: d in devices && r in rules && r.id in touchedRules && CoversUntagged(r.body.appliesTo, d)
              ==> UpToDate(env, d, session.Contents())
  {
    ghost var start := session.Contents();
    var affected := AffectedDevices(devices, env.targets, rules, touchedTargets, touchedRules);
    ListedAffected(devices, start.compliance.devices, env.targets, rules, touchedTargets, touchedRules, affected);
    count := session.Reevaluate(env, base, affected);
    PassReevaluates(env, base, start, session.Contents(), rules, touchedTargets, touchedRules, affected);
    FleetIsUpToDate(env, devices, rules, touchedTargets, touchedRules, start, session.Contents());
  }
}
