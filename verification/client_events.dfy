/** UpdateObservation and IssueEvents of src/sc2api/sc2_client.cc as they run: the unit pool
    and the client's fields are updated in place, callbacks are recorded in the order made. */
module ClientEvents {
  import opened UnitPools
  import opened FrameDiff

  class Control {
    const pool: UnitPool
    var unitsPreviousMap: map<Tag, UnitData>
    var currentGameLoop: nat
    var previousGameLoop: nat
    var upgrades: seq<nat>
    var upgradesPrevious: seq<nat>
    var callbacks: seq<Event>

    constructor (pool: UnitPool)
      requires pool.Valid() && pool.Abs() == Pool([], {})
      ensures Valid() && this.pool == pool && callbacks == []
      ensures Abs() == Diff(map[], {}, map[], 0xffff_ffff, 0xffff_ffff, [], [])
    {
      this.pool := pool;
      unitsPreviousMap, upgrades, upgradesPrevious, callbacks := map[], [], [], [];
      currentGameLoop, previousGameLoop := 0xffff_ffff, 0xffff_ffff;
      new;
      assert pool.tagToUnit == map[];
    }

    ghost predicate Valid()
      reads this, pool, pool.tagToUnit.Values
    {
      pool.Valid() && Sane(Abs())
    }

    ghost function Known(): map<Tag, UnitData>
      reads pool, pool.tagToUnit.Values
    {
      map t | t in pool.tagToUnit :: pool.tagToUnit[t].data
    }

    ghost function Abs(): Diff
      reads this, pool, pool.tagToUnit.Values
    {
      Diff(Known(), pool.tagToExistingUnit.Keys, unitsPreviousMap, currentGameLoop, previousGameLoop, upgrades, upgradesPrevious)
    }

    /** Copies the existing units, in whatever order the pool lists them. */
    static method CopyUnits(existing: map<Tag, Unit>, ghost known: map<Tag, UnitData>) returns (copy: map<Tag, UnitData>)
      requires forall t :: t in existing ==> t in known && existing[t].data == known[t] && known[t].tag == t
      ensures copy == map t | t in existing :: known[t]
    {
      copy := map[];
      var rest := existing.Keys;
      while rest != {}
        invariant rest <= existing.Keys && copy.Keys == existing.Keys - rest
        invariant forall t :: t in copy ==> copy[t] == known[t]
        decreases |rest|
      {
        var tag :| tag in rest;
        var unit := existing[tag];
        copy := copy[unit.data.tag := unit.data];
        rest := rest - {tag};
      }
    }

    method RememberUnits()
      requires Valid()
      modifies this`unitsPreviousMap
      ensures Valid() && Abs() == old(Abs()).(previous := Copied(old(Abs())))
    {
      hide UnitPools.UnitPool.Valid;
      pool.PoolFacts();
      ghost var d := Abs();
      assert forall t :: t in d.existing ==> pool.tagToExistingUnit[t].data == d.known[t] && d.known[t].tag == t;
      var copy := CopyUnits(pool.tagToExistingUnit, d.known);
      assert copy == Copied(d);
      unitsPreviousMap := copy;
    }

    /** UpdateObservation; its answer is not looked at by the callers. */
    method UpdateObservation(f: Frame) returns (ok: bool)
      requires Valid()
      modifies this, pool, pool.Units()
      ensures Valid() && fresh(pool.Units() - old(pool.Units())) && callbacks == old(callbacks)
      ensures Abs() == Update(old(Abs()), f)
      ensures ok <==> f.scoreOk && f.raw.Some? && f.raw.value.player.Some? && f.raw.value.player.value.hasCamera
    {
      hide UnitPools.UnitPool.Valid, Ingest, TagsIn;
      if !f.scoreOk { return false; }
      previousGameLoop := currentGameLoop;
      currentGameLoop := f.gameLoop;
      if f.raw.None? { return false; }
      var raw := f.raw.value;
      TakeIn(raw.units, f.gameLoop);
      if raw.player.None? { return false; }
      if !raw.player.value.hasCamera { return false; }
      upgradesPrevious := upgrades;
      upgrades := raw.player.value.upgrades;
      return true;
    }

    /** The units of the frame replace those of the one before, which are copied. */
    method TakeIn(units: seq<UnitData>, gameLoop: nat)
      requires Valid()
      modifies this`unitsPreviousMap, pool, pool.Units()
      ensures Valid() && fresh(pool.Units() - old(pool.Units()))
      ensures Abs() == old(Abs()).(previous := Copied(old(Abs())), known := Ingest(old(Known()), units, gameLoop),
                                   existing := TagsIn(units))
    {
      hide UnitPools.UnitPool.Valid, Ingest, TagsIn, Copied, Apply;
      RememberUnits();
      pool.ClearExisting();
      assert Known() == old(Known());
      Convert(units, gameLoop);
    }

    /** Convert: creates or finds each unit of the frame and overwrites its fields. */
    method Convert(units: seq<UnitData>, gameLoop: nat)
      requires Valid() && pool.tagToExistingUnit == map[]
      modifies pool, pool.Units()
      ensures Valid() && fresh(pool.Units() - old(pool.Units()))
      ensures Abs() == old(Abs()).(known := Ingest(old(Known()), units, gameLoop), existing := TagsIn(units))
    {
      hide UnitPools.UnitPool.Valid;
      ghost var known := Known();
      for i := 0 to |units|
        invariant Valid() && fresh(pool.Units() - old(pool.Units()))
        invariant Known() == Ingest(known, units[..i], gameLoop)
        invariant pool.tagToExistingUnit.Keys == TagsIn(units[..i])
      {
        ConvertUnit(units[i], gameLoop);
        assert units[..i + 1] == units[..i] + [units[i]];
        assert units[..i + 1][..i] == units[..i];
      }
      assert units[..|units|] == units;
    }

    method ConvertUnit(u: UnitData, gameLoop: nat)
      requires Valid()
      modifies pool, pool.Units()
      ensures Valid() && fresh(pool.Units() - old(pool.Units()))
      ensures Known() == old(Known())[u.tag := u.(isAlive := true, lastSeen := gameLoop)]
      ensures pool.tagToExistingUnit.Keys == old(pool.tagToExistingUnit.Keys) + {u.tag}
    {
      hide UnitPools.UnitPool.Valid, UnitPools.UnitPool.Extends, HasSlot, At, SlotOf, Apply;
      pool.PoolFacts();
      ghost var before := Known();
      var unit := pool.CreateUnit(u.tag);
      assert forall t :: t in before ==> t in pool.tagToUnit && pool.tagToUnit[t].data == before[t];
      assert pool.tagToExistingUnit.Keys == old(pool.tagToExistingUnit.Keys) + {u.tag};
      unit.data := u.(isAlive := true, lastSeen := gameLoop);
      assert Known() == before[u.tag := unit.data];
      pool.PoolFacts();
    }

    // ---- IssueEvents ----

    lemma UnitsKnowTheirTags()
      requires Valid()
      ensures forall t :: t in pool.tagToUnit ==> t in Known() && pool.tagToUnit[t].data == Known()[t] && Known()[t].tag == t
      ensures forall t :: t in pool.tagToExistingUnit ==> t in pool.tagToUnit && pool.tagToExistingUnit[t] == pool.tagToUnit[t]
    {
      hide UnitPools.UnitPool.Valid;
      pool.PoolFacts();
    }

    /** The dead units of the frame, as often as it lists them, when they were ever seen. */
    method IssueUnitDestroyedEvents(f: Frame, ghost commands: seq<Tag>) returns (events: seq<Event>)
      requires Valid() && Issues(Abs())
      modifies pool, pool.Units()
      ensures Valid() && pool.Units() == old(pool.Units())
      ensures Abs() == Issue(old(Abs()), f) && Covers(events, old(Abs()), f, commands, 0)
    {
      hide UnitPools.UnitPool.Valid, Buried, Issue, Reports, Covers;
      events := [];
      ghost var d := Abs();
      ReportsCover(events, d, f, commands);
      if f.raw.None? {
        return;
      }
      var dead := f.raw.value.dead;
      for i := 0 to |dead|
        invariant Valid() && pool.Units() == old(pool.Units()) && Abs() == Buried(d, dead[..i])
        invariant Reports(events, d, dead[..i])
      {
        DestroyedOneMore(d, dead, i);
        ReportsOneMore(events, d, dead, i);
        var destroyed := Destroy(dead[i]);
        events := events + destroyed;
      }
      assert dead[..|dead|] == dead;
      ReportsCover(events, d, f, commands);
    }

    /** One unit reported dead, if it was ever seen. */
    method Destroy(tag: Tag) returns (events: seq<Event>)
      requires Valid()
      modifies pool, pool.Units()
      ensures Valid() && pool.Units() == old(pool.Units())
      ensures Abs() == if tag in old(Known()) then Buried(old(Abs()), [tag]) else old(Abs())
      ensures events == if tag in old(Known()) then [UnitDestroyed(tag)] else []
    {
      hide UnitPools.UnitPool.Valid, Buried;
      UnitsKnowTheirTags();
      var unit := pool.GetUnit(tag);
      if unit == null {
        return [];
      }
      events := [UnitDestroyed(unit.data.tag)];
      MarkDead(tag);
    }

    method MarkDead(tag: Tag)
      requires Valid() && tag in pool.tagToUnit
      modifies pool, pool.Units()
      ensures Valid() && pool.Units() == old(pool.Units())
      ensures Abs() == Buried(old(Abs()), [tag])
    {
      hide UnitPools.UnitPool.Valid;
      pool.PoolFacts();
      pool.UnitsApart(tag);
      ghost var d := Abs();
      ghost var known := pool.tagToUnit;
      pool.MarkDead(tag);
      assert Known() == Buried(d, [tag]).known;
    }

    /** The events of one phase about one unit. */
    static ghost predicate CoversUnit(events: seq<Event>, d: Diff, f: Frame, commands: seq<Tag>, phase: nat, tag: Tag)
      requires Sane(d)
    {
      forall e :: multiset(events)[e] == if phase <= 2 && Phase(e) == phase && e.tag == tag then Fires(d, f, commands, e) else 0
    }

    static method AddedEvent(unit: UnitData, previous: map<Tag, UnitData>,
                             ghost d: Diff, ghost f: Frame, ghost commands: seq<Tag>)
      returns (events: seq<Event>)
      requires Sane(d) && Issues(d) && previous == d.previous
      requires unit.tag in Issue(d, f).existing && unit == Issue(d, f).known[unit.tag]
      ensures CoversUnit(events, d, f, commands, 1, unit.tag)
    {
      if unit.tag in previous {
        return [];
      }
      if unit.alliance.Enemy? && unit.display.Visible? {
        return [UnitEnterVision(unit.tag)];
      } else if unit.alliance.Own? {
        return [UnitCreated(unit.tag)];
      }
      return [];
    }

    /** ForEachExistingUnit with the callback that compares with the copy, in any order. */
    static method IssueUnitAddedEvents(existing: map<Tag, Unit>, previous: map<Tag, UnitData>,
                                       ghost d: Diff, ghost f: Frame, ghost commands: seq<Tag>)
      returns (events: seq<Event>)
      requires Sane(d) && Issues(d) && previous == d.previous && existing.Keys == Issue(d, f).existing
      requires forall t :: t in existing ==> existing[t].data == Issue(d, f).known[t]
      ensures Covers(events, d, f, commands, 1)
    {
      IssueKeepsSane(d, f);
      EntersIfExisting(d, f, commands);
      hide Fires, Issue, Issues;
      events := [];
      var rest := existing.Keys;
      while rest != {}
        invariant rest <= existing.Keys
        invariant forall e :: multiset(events)[e] == if Phase(e) == 1 && e.tag !in rest then Fires(d, f, commands, e) else 0
        decreases |rest|
      {
        var tag :| tag in rest;
        rest := rest - {tag};
        var unit := existing[tag];
        var added := AddedEvent(unit.data, previous, d, f, commands);
        events := events + added;
      }
    }

    /** GetUnits of the client's own alliance, in any order. */
    static method OwnUnits(existing: map<Tag, Unit>) returns (units: seq<Unit>, ghost tags: seq<Tag>)
      ensures forall i :: 0 <= i < |units| ==> units[i] in existing.Values && units[i].data.alliance.Own?
      ensures |tags| == |units| && Distinct(tags)
      ensures forall i :: 0 <= i < |tags| ==> tags[i] in existing && existing[tags[i]] == units[i]
      ensures forall t :: t in tags <==> t in existing && existing[t].data.alliance.Own?
    {
      units, tags := [], [];
      var rest := existing.Keys;
      while rest != {}
        invariant rest <= existing.Keys && |tags| == |units| && Distinct(tags)
        invariant forall i :: 0 <= i < |units| ==> units[i] in existing.Values && units[i].data.alliance.Own?
        invariant forall i :: 0 <= i < |tags| ==> tags[i] in existing && existing[tags[i]] == units[i]
        invariant forall t :: t in tags <==> t in existing && t !in rest && existing[t].data.alliance.Own?
        decreases |rest|
      {
        var tag :| tag in rest;
        rest := rest - {tag};
        var unit := existing[tag];
        if unit.data.alliance.Own? {
          units, tags := units + [unit], tags + [tag];
        }
      }
    }

    static method IssueIdleEvent(unit: UnitData, previous: map<Tag, UnitData>, commands: seq<Tag>, ghost d: Diff)
      returns (events: seq<Event>)
      requires previous == d.previous && unit.alliance.Own?
      requires unit.tag in d.known && unit == d.known[unit.tag].(isAlive := unit.isAlive)
      ensures events == if IdleDue(d, commands, unit.tag) then [UnitIdle(unit.tag)] else []
    {
      if unit.orders != [] || unit.buildProgress < 1.0 {
        return [];
      }
      if unit.tag !in previous {
        return [UnitIdle(unit.tag)];
      }
      var unitPrevious := previous[unit.tag];
      if unitPrevious.orders != [] {
        return [UnitIdle(unit.tag)];
      }
      if unitPrevious.buildProgress < 1.0 {
        return [UnitIdle(unit.tag)];
      }
      for i := 0 to |commands|
        invariant unit.tag !in commands[..i]
      {
        if commands[i] == unit.tag {
          return [UnitIdle(unit.tag)];
        }
      }
      assert commands[..|commands|] == commands;
      return [];
    }

    static method IssueBuildingCompletedEvent(unit: UnitData, previous: map<Tag, UnitData>, ghost d: Diff)
      returns (events: seq<Event>)
      requires previous == d.previous && unit.alliance.Own?
      requires unit.tag in d.known && unit == d.known[unit.tag].(isAlive := unit.isAlive)
      ensures events == if CompletionDue(d, unit.tag) then [BuildingCompleted(unit.tag)] else []
    {
      if unit.buildProgress < 1.0 {
        return [];
      }
      if unit.tag !in previous {
        return [];
      }
      var unitPrevious := previous[unit.tag];
      return if unitPrevious.buildProgress < 1.0 then [BuildingCompleted(unit.tag)] else [];
    }

    static method OwnUnitEvents(unit: UnitData, previous: map<Tag, UnitData>, ghost d: Diff, ghost f: Frame, commands: seq<Tag>)
      returns (events: seq<Event>)
      requires Sane(d) && Issues(d) && previous == d.previous && unit.alliance.Own?
      requires unit.tag in Issue(d, f).existing && unit == Issue(d, f).known[unit.tag]
      ensures CoversUnit(events, d, f, commands, 2, unit.tag)
    {
      hide IdleDue, CompletionDue;
      var idle := IssueIdleEvent(unit, previous, commands, d);
      var completed := IssueBuildingCompletedEvent(unit, previous, d);
      return idle + completed;
    }

    static method IssueOwnUnitEvents(existing: map<Tag, Unit>, previous: map<Tag, UnitData>,
                                     ghost d: Diff, ghost f: Frame, commands: seq<Tag>)
      returns (events: seq<Event>)
      requires Sane(d) && Issues(d) && previous == d.previous && existing.Keys == Issue(d, f).existing
      requires forall t :: t in existing ==> existing[t].data == Issue(d, f).known[t]
      ensures Covers(events, d, f, commands, 2)
    {
      IssueKeepsSane(d, f);
      OwnIfIssued(d, f, commands);
      hide Fires, Issue, Issues;
      events := [];
      var units, tags := OwnUnits(existing);
      for i := 0 to |units|
        invariant forall e :: multiset(events)[e] == if Phase(e) == 2 && e.tag in tags[..i] then Fires(d, f, commands, e) else 0
      {
        assert tags[..i + 1] == tags[..i] + [tags[i]];
        var issued := OwnUnitEvents(units[i].data, previous, d, f, commands);
        events := events + issued;
      }
      assert tags[..|units|] == tags;
    }

    static method IssueUpgradeEvents(upgrades: seq<nat>, upgradesPrevious: seq<nat>,
                                     ghost d: Diff, ghost f: Frame, ghost commands: seq<Tag>)
      returns (events: seq<Event>)
      requires Sane(d) && Issues(d) && upgrades == d.upgrades && upgradesPrevious == d.upgradesPrevious
      ensures Covers(events, d, f, commands, 3)
    {
      events := [];
      var previous := set up | up in upgradesPrevious;
      for i := 0 to |upgrades|
        invariant forall e :: multiset(events)[e] == Upgraded(upgradesPrevious, upgrades[..i], e)
      {
        assert upgrades[..i + 1] == upgrades[..i] + [upgrades[i]];
        if upgrades[i] !in previous {
          events := events + [UpgradeCompleted(upgrades[i])];
        }
      }
      assert upgrades[..|upgrades|] == upgrades;
    }

    static method IssueAlertEvents(f: Frame, ghost d: Diff, ghost commands: seq<Tag>) returns (events: seq<Event>)
      requires Sane(d) && Issues(d)
      ensures Covers(events, d, f, commands, 4)
    {
      events := [];
      for i := 0 to |f.alerts|
        invariant forall e :: multiset(events)[e] == Alerted(f.alerts[..i], e)
      {
        assert f.alerts[..i + 1] == f.alerts[..i] + [f.alerts[i]];
        match f.alerts[i]
        case NuclearLaunch => events := events + [NuclearLaunchDetected];
        case NydusWorm => events := events + [NydusDetected];
        case OtherAlert =>
      }
      assert f.alerts[..|f.alerts|] == f.alerts;
    }

    /** The events after the deaths, group after group. */
    static method LaterEvents(destroyed: seq<Event>, existing: map<Tag, Unit>, previous: map<Tag, UnitData>,
                              upgrades: seq<nat>, upgradesPrevious: seq<nat>, f: Frame, commands: seq<Tag>, ghost d: Diff)
      returns (events: seq<Event>)
      requires Sane(d) && Issues(d) && previous == d.previous && existing.Keys == Issue(d, f).existing
      requires forall t :: t in existing ==> existing[t].data == Issue(d, f).known[t]
      requires upgrades == d.upgrades && upgradesPrevious == d.upgradesPrevious && CoversUpTo(destroyed, d, f, commands, 0)
      ensures CoversUpTo(destroyed + events, d, f, commands, 5)
    {
      hide *;
      var added := IssueUnitAddedEvents(existing, previous, d, f, commands);
      NextGroup(destroyed, added, d, f, commands, 0);
      var own := IssueOwnUnitEvents(existing, previous, d, f, commands);
      NextGroup(destroyed + added, own, d, f, commands, 1);
      var upgraded := IssueUpgradeEvents(upgrades, upgradesPrevious, d, f, commands);
      NextGroup(destroyed + added + own, upgraded, d, f, commands, 2);
      var alerted := IssueAlertEvents(f, d, commands);
      NextGroup(destroyed + added + own + upgraded, alerted, d, f, commands, 3);
      StepFires(d, f, commands);
      NextGroup(destroyed + added + own + upgraded + alerted, [OnStep], d, f, commands, 4);
      events := added + own + upgraded + alerted + [OnStep];
      assert destroyed + events == destroyed + added + own + upgraded + alerted + [OnStep];
    }

    /** IssueEvents: nothing unless the loop moved; otherwise every event as often as it is due,
        group after group. commands are the tags that orders were given to since the last step. */
    method IssueEvents(f: Frame, commands: seq<Tag>) returns (issued: bool, events: seq<Event>)
      requires Valid()
      modifies this`callbacks, pool, pool.Units()
      ensures Valid() && Abs() == Issue(old(Abs()), f) && callbacks == old(callbacks) + events
      ensures pool.Units() == old(pool.Units())
      ensures issued <==> Issues(old(Abs()))
      ensures forall e :: multiset(events)[e] == Fires(old(Abs()), f, commands, e)
      ensures InPhases(events)
    {
      hide UnitPools.UnitPool.Valid, Issue, Fires;
      ghost var d := Abs();
      if currentGameLoop == previousGameLoop {
        NothingFires(d, f, commands);
        return false, [];
      }
      hide Sane, Covers, Issues;
      events := IssueUnitDestroyedEvents(f, commands);
      FirstGroup(events, d, f, commands);
      UnitsKnowTheirTags();
      var later := LaterEvents(events, pool.tagToExistingUnit, unitsPreviousMap, upgrades, upgradesPrevious, f, commands, d);
      events := events + later;
      StepFires(d, f, commands);
      callbacks := callbacks + events;
      return true, events;
    }

    /** One step of an agent: an observation is taken in and its events are issued. */
    method TakeTurn(f: Frame, commands: seq<Tag>) returns (events: seq<Event>)
      requires Valid()
      modifies this, pool, pool.Units()
      ensures Valid() && Abs() == Turn(old(Abs()), f) && callbacks == old(callbacks) + events
      ensures fresh(pool.Units() - old(pool.Units()))
      ensures Sane(Update(old(Abs()), f)) && forall e :: multiset(events)[e] == Fires(Update(old(Abs()), f), f, commands, e)
      ensures InPhases(events)
    {
      hide UnitPools.UnitPool.Valid, Fires, Issue, Update;
      UpdateKeepsSane(Abs(), f);
      var _ := UpdateObservation(f);
      var issued;
      issued, events := IssueEvents(f, commands);
    }

    /** A whole run: at every step each event is issued as often as it is due there. */
    method Play(fs: seq<Frame>, commands: seq<seq<Tag>>) returns (log: seq<seq<Event>>)
      requires Valid() && |commands| == |fs|
      modifies this, pool, pool.Units()
      ensures Valid() && Abs() == After(old(Abs()), fs) && |log| == |fs|
      ensures forall k :: 0 <= k < |fs| ==> Logged(log[k], old(Abs()), fs, commands[k], k)
    {
      hide UnitPools.UnitPool.Valid, Turn, Logged;
      log := [];
      ghost var d := Abs();
      for i := 0 to |fs|
        invariant Valid() && fresh(pool.Units() - old(pool.Units())) && Abs() == After(d, fs[..i]) && |log| == i
        invariant forall k :: 0 <= k < i ==> Logged(log[k], d, fs, commands[k], k)
      {
        hide Sane, After;
        AfterSteps(d, fs, i);
        var events := TakeTurn(fs[i], commands[i]);
        LoggedByTurn(events, d, fs, commands[i], i);
        log := log + [events];
      }
      assert fs[..|fs|] == fs;
    }

    static ghost predicate Logged(events: seq<Event>, d: Diff, fs: seq<Frame>, commands: seq<Tag>, k: nat)
      requires Sane(d) && k < |fs|
    {
      InPhases(events) && forall e :: multiset(events)[e] == FiresAt(d, fs, commands, k, e)
    }

    static lemma LoggedByTurn(events: seq<Event>, d: Diff, fs: seq<Frame>, commands: seq<Tag>, k: nat)
      requires Sane(d) && k < |fs| && InPhases(events) && Sane(Update(After(d, fs[..k]), fs[k]))
      requires forall e :: multiset(events)[e] == Fires(Update(After(d, fs[..k]), fs[k]), fs[k], commands, e)
      ensures Logged(events, d, fs, commands, k)
    {
      hide Fires, Update, After;
    }
  }
}
