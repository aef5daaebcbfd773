/** What the client makes of a run of observations (UpdateObservation and the Issue functions of
    src/sc2api/sc2_client.cc), as a value: the state after each frame and the events it fires. */
module FrameDiff {
  import opened UnitPools
  import opened Wrappers

  datatype Alert = NuclearLaunch | NydusWorm | OtherAlert

  datatype PlayerRaw = PlayerRaw(hasCamera: bool, upgrades: seq<nat>)

  datatype Raw = Raw(units: seq<UnitData>, dead: seq<Tag>, player: Option<PlayerRaw>)

  /** An observation: scoreOk says whether its score converts. */
  datatype Frame = Frame(gameLoop: nat, scoreOk: bool, raw: Option<Raw>, alerts: seq<Alert>)

  datatype Event = UnitDestroyed(tag: Tag) | UnitEnterVision(tag: Tag) | UnitCreated(tag: Tag)
    | UnitIdle(tag: Tag) | BuildingCompleted(tag: Tag) | UpgradeCompleted(id: nat)
    | NuclearLaunchDetected | NydusDetected | OnStep

  /** known holds the fields of every unit ever seen, existing the tags of the current frame,
      previous a copy of the units that existed before it. */
  datatype Diff = Diff(known: map<Tag, UnitData>, existing: set<Tag>, previous: map<Tag, UnitData>,
                       currentLoop: nat, previousLoop: nat, upgrades: seq<nat>, upgradesPrevious: seq<nat>)

  ghost predicate Sane(d: Diff) {
    && d.existing <= d.known.Keys
    && forall t :: t in d.known ==> d.known[t].tag == t
  }

  // ---- UpdateObservation ----

  /** Convert: every unit of the frame enters the pool and has its fields overwritten. */
  function Ingest(known: map<Tag, UnitData>, units: seq<UnitData>, gameLoop: nat): map<Tag, UnitData> {
    if units == [] then known
    else
      var u := units[|units| - 1];
      Ingest(known, units[..|units| - 1], gameLoop)[u.tag := u.(isAlive := true, lastSeen := gameLoop)]
  }

  function TagsIn(units: seq<UnitData>): set<Tag> { set u | u in units :: u.tag }

  function Copied(d: Diff): map<Tag, UnitData>
    requires Sane(d)
  {
    map t | t in d.existing :: d.known[t]
  }

  function Update(d: Diff, f: Frame): Diff
    requires Sane(d)
  {
    if !f.scoreOk then d
    else
      var d1 := d.(previousLoop := d.currentLoop, currentLoop := f.gameLoop);
      if f.raw.None? then d1
      else
        var raw := f.raw.value;
        var d2 := d1.(previous := Copied(d), known := Ingest(d.known, raw.units, f.gameLoop), existing := TagsIn(raw.units));
        if raw.player.None? || !raw.player.value.hasCamera then d2
        else d2.(upgradesPrevious := d2.upgrades, upgrades := raw.player.value.upgrades)
  }

  lemma {:induction false} IngestedTags(known: map<Tag, UnitData>, units: seq<UnitData>, gameLoop: nat)
    ensures Ingest(known, units, gameLoop).Keys == known.Keys + TagsIn(units)
    ensures (forall t :: t in known ==> known[t].tag == t) ==>
      forall t :: t in Ingest(known, units, gameLoop) ==> Ingest(known, units, gameLoop)[t].tag == t
  {
    if units != [] {
      var front, u := units[..|units| - 1], units[|units| - 1];
      assert units == front + [u];
      IngestedTags(known, front, gameLoop);
      assert TagsIn(units) == TagsIn(front) + {u.tag};
    }
  }

  lemma UpdateKeepsSane(d: Diff, f: Frame)
    requires Sane(d)
    ensures Sane(Update(d, f))
  {
    if f.raw.Some? { IngestedTags(d.known, f.raw.value.units, f.gameLoop); }
  }

  // ---- IssueEvents ----

  /** Events are issued only when the game loop moved. */
  predicate Issues(d: Diff) { d.currentLoop != d.previousLoop }

  function DeadIn(f: Frame): seq<Tag> { if f.raw.Some? then f.raw.value.dead else [] }

  function Gone(d: Diff, dead: seq<Tag>): set<Tag> { set t | t in dead && t in d.known }

  /** The reported units are dead and exist no more. */
  function Buried(d: Diff, dead: seq<Tag>): Diff {
    var gone := Gone(d, dead);
    d.(existing := d.existing - gone,
       known := map t | t in d.known :: if t in gone then d.known[t].(isAlive := false) else d.known[t])
  }

  /** The state after the events. */
  function Issue(d: Diff, f: Frame): Diff {
    if Issues(d) then Buried(d, DeadIn(f)) else d
  }

  predicate Entered(d: Diff, f: Frame, t: Tag)
    requires Sane(d)
  {
    t in Issue(d, f).existing && t !in d.previous
  }

  predicate IdleDue(d: Diff, commands: seq<Tag>, t: Tag)
    requires t in d.known
  {
    var unit := d.known[t];
    && unit.alliance.Own? && unit.orders == [] && unit.buildProgress >= 1.0
    && (t !in d.previous || d.previous[t].orders != [] || d.previous[t].buildProgress < 1.0 || t in commands)
  }

  predicate CompletionDue(d: Diff, t: Tag)
    requires t in d.known
  {
    && d.known[t].alliance.Own? && d.known[t].buildProgress >= 1.0
    && t in d.previous && d.previous[t].buildProgress < 1.0
  }

  function Count(due: bool): nat { if due then 1 else 0 }

  function Occurrences(s: seq<nat>, x: nat): nat { multiset(s)[x] }

  /** How often IssueEvents calls back with e, for d as it stands after the update. */
  function Fires(d: Diff, f: Frame, commands: seq<Tag>, e: Event): nat
    requires Sane(d)
  {
    if !Issues(d) then 0
    else
      var existing := Issue(d, f).existing;
      match e
      case UnitDestroyed(t) => if t in d.known then Occurrences(DeadIn(f), t) else 0
      case UnitEnterVision(t) => Count(Entered(d, f, t) && d.known[t].alliance.Enemy? && d.known[t].display.Visible?)
      case UnitCreated(t) => Count(Entered(d, f, t) && d.known[t].alliance.Own?)
      case UnitIdle(t) => Count(t in existing && IdleDue(d, commands, t))
      case BuildingCompleted(t) => Count(t in existing && CompletionDue(d, t))
      case UpgradeCompleted(_) => Upgraded(d.upgradesPrevious, d.upgrades, e)
      case NuclearLaunchDetected | NydusDetected => Alerted(f.alerts, e)
      case OnStep => 1
  }

  /** The groups of events, in the order they are issued. */
  function Phase(e: Event): nat {
    match e
    case UnitDestroyed(_) => 0
    case UnitEnterVision(_) | UnitCreated(_) => 1
    case UnitIdle(_) | BuildingCompleted(_) => 2
    case UpgradeCompleted(_) => 3
    case NuclearLaunchDetected | NydusDetected => 4
    case OnStep => 5
  }

  /** The events are those of one group, each as often as it fires. */
  ghost predicate Covers(events: seq<Event>, d: Diff, f: Frame, commands: seq<Tag>, phase: nat)
    requires Sane(d)
  {
    forall e :: multiset(events)[e] == if Phase(e) == phase then Fires(d, f, commands, e) else 0
  }

  predicate InPhases(events: seq<Event>) { forall i, j :: 0 <= i < j < |events| ==> Phase(events[i]) <= Phase(events[j]) }

  /** The order, spelled out: deaths, then units that enter, then idle and completed ones, then
      upgrades, then alerts, and the step at the very end. */
  lemma EventsInOrder(events: seq<Event>, i: nat, j: nat)
    requires InPhases(events) && i < j < |events|
    ensures events[j].UnitDestroyed? ==> events[i].UnitDestroyed?
    ensures events[j].UnitEnterVision? || events[j].UnitCreated? ==>
      events[i].UnitDestroyed? || events[i].UnitEnterVision? || events[i].UnitCreated?
    ensures events[j].UnitIdle? || events[j].BuildingCompleted? ==>
      !events[i].UpgradeCompleted? && !events[i].NuclearLaunchDetected? && !events[i].NydusDetected? && !events[i].OnStep?
    ensures events[j].UpgradeCompleted? ==> !events[i].NuclearLaunchDetected? && !events[i].NydusDetected? && !events[i].OnStep?
    ensures events[j].NuclearLaunchDetected? || events[j].NydusDetected? ==> !events[i].OnStep?
  {
    assert Phase(events[i]) <= Phase(events[j]);
  }

  lemma NothingFires(d: Diff, f: Frame, commands: seq<Tag>)
    requires Sane(d) && !Issues(d)
    ensures Issue(d, f) == d && forall e :: Fires(d, f, commands, e) == 0
  {
  }

  /** Only units that exist enter. */
  lemma EntersIfExisting(d: Diff, f: Frame, commands: seq<Tag>)
    requires Sane(d)
    ensures Issue(d, f).existing <= Issue(d, f).known.Keys
    ensures forall e :: Phase(e) == 1 && e.tag !in Issue(d, f).existing ==> Fires(d, f, commands, e) == 0
  {
  }

  lemma OwnIfIssued(d: Diff, f: Frame, commands: seq<Tag>)
    requires Sane(d)
    ensures Issue(d, f).existing <= Issue(d, f).known.Keys
    ensures forall e :: Phase(e) == 2 && Fires(d, f, commands, e) > 0 ==>
      e.tag in Issue(d, f).existing && Issue(d, f).known[e.tag].alliance.Own?
  {
  }

  /** The events of all groups up to one, group after group. */
  ghost predicate CoversUpTo(events: seq<Event>, d: Diff, f: Frame, commands: seq<Tag>, phase: int)
    requires Sane(d)
  {
    && (forall e :: multiset(events)[e] == if Phase(e) <= phase then Fires(d, f, commands, e) else 0)
    && InPhases(events)
  }

  lemma FirstGroup(events: seq<Event>, d: Diff, f: Frame, commands: seq<Tag>)
    requires Sane(d) && Covers(events, d, f, commands, 0)
    ensures CoversUpTo(events, d, f, commands, 0)
  {
    hide Fires;
    NextGroup([], events, d, f, commands, -1);
    assert [] + events == events;
  }

  lemma NextGroup(events: seq<Event>, more: seq<Event>, d: Diff, f: Frame, commands: seq<Tag>, phase: int)
    requires Sane(d) && -1 <= phase
    requires CoversUpTo(events, d, f, commands, phase) && Covers(more, d, f, commands, phase + 1)
    ensures CoversUpTo(events + more, d, f, commands, phase + 1)
  {
    hide Fires, Phase;
    forall i | 0 <= i < |events| ensures Phase(events[i]) <= phase {
      assert events[i] in multiset(events);
    }
    forall i | 0 <= i < |more| ensures Phase(more[i]) == phase + 1 {
      assert more[i] in multiset(more);
    }
  }

  lemma StepFires(d: Diff, f: Frame, commands: seq<Tag>)
    requires Sane(d) && Issues(d)
    ensures Covers([OnStep], d, f, commands, 5) && forall e :: Phase(e) <= 5
  {
  }

  /** How often e is issued while the upgrades are gone through. */
  function Upgraded(previous: seq<nat>, upgrades: seq<nat>, e: Event): nat {
    if e.UpgradeCompleted? && e.id !in previous then Occurrences(upgrades, e.id) else 0
  }

  /** How often e is issued while the alerts are gone through. */
  function Alerted(alerts: seq<Alert>, e: Event): nat {
    match e
    case NuclearLaunchDetected => multiset(alerts)[NuclearLaunch]
    case NydusDetected => multiset(alerts)[NydusWorm]
    case _ => 0
  }

  /** How often e is issued while the units reported dead are gone through. */
  function Destroyed(d: Diff, dead: seq<Tag>, e: Event): nat {
    if e.UnitDestroyed? && e.tag in d.known then Occurrences(dead, e.tag) else 0
  }

  lemma NoneBuried(d: Diff)
    requires Sane(d)
    ensures Buried(d, []) == d
  {
    assert d.existing - Gone(d, []) == d.existing;
  }

  lemma DestroyedOneMore(d: Diff, dead: seq<Tag>, i: nat)
    requires Sane(d) && i < |dead|
    ensures Buried(d, dead[..i + 1]) ==
      if dead[i] in d.known then Buried(Buried(d, dead[..i]), [dead[i]]) else Buried(d, dead[..i])
    ensures Buried(d, dead[..i]).known.Keys == d.known.Keys
  {
    assert dead[..i + 1] == dead[..i] + [dead[i]];
    var last := if dead[i] in d.known then {dead[i]} else {};
    assert Gone(d, dead[..i + 1]) == Gone(d, dead[..i]) + last;
    assert Gone(Buried(d, dead[..i]), [dead[i]]) == last;
    assert d.existing - Gone(d, dead[..i + 1]) == d.existing - Gone(d, dead[..i]) - last;
  }

  /** The events are those of the units reported dead. */
  ghost predicate Reports(events: seq<Event>, d: Diff, dead: seq<Tag>) {
    forall e :: multiset(events)[e] == Destroyed(d, dead, e)
  }

  lemma ReportsOneMore(events: seq<Event>, d: Diff, dead: seq<Tag>, i: nat)
    requires i < |dead| && Reports(events, d, dead[..i])
    ensures Reports(events + if dead[i] in d.known then [UnitDestroyed(dead[i])] else [], d, dead[..i + 1])
  {
    assert dead[..i + 1] == dead[..i] + [dead[i]];
  }

  lemma ReportsCover(events: seq<Event>, d: Diff, f: Frame, commands: seq<Tag>)
    requires Sane(d) && Issues(d)
    ensures Reports(events, d, DeadIn(f)) <==> Covers(events, d, f, commands, 0)
    ensures Issue(d, f) == Buried(d, DeadIn(f)) && Buried(d, []) == d && Reports([], d, [])
  {
    NoneBuried(d);
    forall e ensures Destroyed(d, DeadIn(f), e) == if Phase(e) == 0 then Fires(d, f, commands, e) else 0 {
    }
  }

  lemma IssueKeepsSane(d: Diff, f: Frame)
    requires Sane(d)
    ensures Sane(Issue(d, f))
  {
  }

  // ---- Runs ----

  /** One turn: the frame is taken in and its events are issued. */
  function Turn(d: Diff, f: Frame): (r: Diff)
    requires Sane(d)
    ensures Sane(r)
  {
    UpdateKeepsSane(d, f);
    IssueKeepsSane(Update(d, f), f);
    Issue(Update(d, f), f)
  }

  /** The state after all frames. */
  function After(d: Diff, fs: seq<Frame>): (r: Diff)
    requires Sane(d)
    ensures Sane(r)
    decreases |fs|
  {
    if fs == [] then d else Turn(After(d, fs[..|fs| - 1]), fs[|fs| - 1])
  }

  /** A frame that is taken in whole and moves the game loop. */
  predicate Complete(d: Diff, f: Frame) {
    && f.scoreOk && f.raw.Some? && f.raw.value.player.Some? && f.raw.value.player.value.hasCamera
    && f.gameLoop != d.currentLoop
  }

  ghost predicate AllComplete(d: Diff, fs: seq<Frame>)
    requires Sane(d)
  {
    forall k :: 0 <= k < |fs| ==> Complete(After(d, fs[..k]), fs[k])
  }

  /** How often e fires at step k of the run. */
  function FiresAt(d: Diff, fs: seq<Frame>, commands: seq<Tag>, k: nat, e: Event): nat
    requires Sane(d) && k < |fs|
  {
    UpdateKeepsSane(After(d, fs[..k]), fs[k]);
    Fires(Update(After(d, fs[..k]), fs[k]), fs[k], commands, e)
  }

  function Survivors(f: Frame): set<Tag>
    requires f.raw.Some?
  {
    set t | t in TagsIn(f.raw.value.units) && t !in f.raw.value.dead
  }

  /** The units that exist after a complete frame are those it lists and does not report dead. */
  lemma TurnLeavesSurvivors(d: Diff, f: Frame)
    requires Sane(d) && Complete(d, f)
    ensures Turn(d, f).existing == Survivors(f)
    ensures Turn(d, f).upgrades == f.raw.value.player.value.upgrades
  {
    IngestedTags(d.known, f.raw.value.units, f.gameLoop);
  }

  lemma AfterSteps(d: Diff, fs: seq<Frame>, k: nat)
    requires Sane(d) && k < |fs|
    ensures After(d, fs[..k + 1]) == Turn(After(d, fs[..k]), fs[k])
  {
    assert fs[..k + 1][..k] == fs[..k];
  }

  lemma TurnAnnounces(d: Diff, f: Frame, commands: seq<Tag>, t: Tag)
    requires Sane(d) && Complete(d, f)
    ensures Sane(Update(d, f))
    ensures Fires(Update(d, f), f, commands, UnitCreated(t)) ==
      Count(t in Turn(d, f).existing && t !in d.existing && Turn(d, f).known[t].alliance.Own?)
  {
    UpdateKeepsSane(d, f);
  }

  lemma TurnAnnouncesUpgrades(d: Diff, f: Frame, commands: seq<Tag>, id: nat)
    requires Sane(d) && Complete(d, f) && Occurrences(f.raw.value.player.value.upgrades, id) <= 1
    ensures Sane(Update(d, f))
    ensures Fires(Update(d, f), f, commands, UpgradeCompleted(id)) ==
      Count(id in f.raw.value.player.value.upgrades && id !in d.upgrades)
  {
    UpdateKeepsSane(d, f);
  }

  /** OnUnitCreated fires at step k exactly once for each own unit that exists after it and did
      not exist after step k - 1, and for no other; existing units are those of the frame. */
  lemma CreatedExactlyOnEntry(d: Diff, fs: seq<Frame>, commands: seq<Tag>, k: nat, t: Tag)
    requires Sane(d) && k < |fs| && AllComplete(d, fs)
    ensures After(d, fs[..k + 1]).existing == Survivors(fs[k])
    ensures FiresAt(d, fs, commands, k, UnitCreated(t)) ==
      Count(&& t in After(d, fs[..k + 1]).existing && t !in After(d, fs[..k]).existing
            && After(d, fs[..k + 1]).known[t].alliance.Own?)
  {
    hide Turn, Update, Fires, After, Survivors, Complete;
    AfterSteps(d, fs, k);
    TurnLeavesSurvivors(After(d, fs[..k]), fs[k]);
    TurnAnnounces(After(d, fs[..k]), fs[k], commands, t);
  }

  lemma StepIsComplete(d: Diff, fs: seq<Frame>, k: nat)
    requires Sane(d) && k < |fs| && AllComplete(d, fs)
    ensures Complete(After(d, fs[..k]), fs[k])
  {
    hide After, Complete;
  }

  /** What exists after step k, when there is one before it. */
  lemma ExistsByFrame(d: Diff, fs: seq<Frame>, k: nat)
    requires Sane(d) && 0 < k <= |fs| && AllComplete(d, fs)
    ensures Complete(After(d, fs[..k - 1]), fs[k - 1])
    ensures After(d, fs[..k]).existing == Survivors(fs[k - 1])
    ensures After(d, fs[..k]).upgrades == fs[k - 1].raw.value.player.value.upgrades
  {
    hide *;
    StepIsComplete(d, fs, k - 1);
    AfterSteps(d, fs, k - 1);
    TurnLeavesSurvivors(After(d, fs[..k - 1]), fs[k - 1]);
  }

  lemma ListsUnits(d: Diff, fs: seq<Frame>, k: nat)
    requires Sane(d) && k < |fs| && AllComplete(d, fs)
    ensures fs[k].raw.Some? && fs[k].raw.value.player.Some?
  {
    hide After;
  }

  /** Between two creations of one tag there is a step after which it did not exist. */
  lemma GoneBetweenCreations(d: Diff, fs: seq<Frame>, commands: seq<Tag>, j: nat, k: nat, t: Tag)
    requires Sane(d) && j < k < |fs| && AllComplete(d, fs)
    requires FiresAt(d, fs, commands, j, UnitCreated(t)) > 0 && FiresAt(d, fs, commands, k, UnitCreated(t)) > 0
    ensures exists m :: j < m < k && fs[m].raw.Some? && t !in Survivors(fs[m])
  {
    hide After, FiresAt, Survivors, AllComplete;
    CreatedExactlyOnEntry(d, fs, commands, j, t);
    CreatedExactlyOnEntry(d, fs, commands, k, t);
    ExistsByFrame(d, fs, k);
    ListsUnits(d, fs, k - 1);
    assert t !in Survivors(fs[k - 1]);
    assert j < k - 1;
  }

  lemma BeforeAnyStep(d: Diff, fs: seq<Frame>, k: nat)
    requires Sane(d) && k <= |fs|
    ensures k == 0 ==> After(d, fs[..k]) == d
  {
    hide Turn;
    if k == 0 { assert fs[..k] == []; }
  }

  lemma OnceForEntry(after: Diff, before: Diff, t: Tag)
    requires Sane(after) && t in after.existing
    ensures t in after.known && (t !in before.existing && after.known[t].alliance.Own? ==>
      Count(t in after.existing && t !in before.existing && after.known[t].alliance.Own?) == 1)
  {
  }

  /** A unit that exists after step k entered at some step and existed ever since; if it was
      the client's own then, its creation was announced at that step. */
  lemma {:induction false} EveryUnitEntered(d: Diff, fs: seq<Frame>, commands: seq<Tag>, k: nat, t: Tag) returns (j: nat)
    requires Sane(d) && d.existing == {} && k < |fs| && AllComplete(d, fs)
    requires t in After(d, fs[..k + 1]).existing
    ensures j <= k && t !in After(d, fs[..j]).existing
    ensures forall m :: j <= m <= k ==> fs[m].raw.Some? && t in Survivors(fs[m])
    ensures t in After(d, fs[..j + 1]).existing
    ensures After(d, fs[..j + 1]).known[t].alliance.Own? ==> FiresAt(d, fs, commands, j, UnitCreated(t)) == 1
  {
    hide *;
    CreatedExactlyOnEntry(d, fs, commands, k, t);
    OnceForEntry(After(d, fs[..k + 1]), After(d, fs[..k]), t);
    ListsUnits(d, fs, k);
    if t in After(d, fs[..k]).existing {
      BeforeAnyStep(d, fs, k);
      j := EveryUnitEntered(d, fs, commands, k - 1, t);
    } else {
      j := k;
    }
  }

  /** An upgrade is announced at the step whose frame lists it while the one before did not. */
  lemma UpgradesExactlyWhenNew(d: Diff, fs: seq<Frame>, commands: seq<Tag>, k: nat, id: nat)
    requires Sane(d) && k < |fs| && AllComplete(d, fs)
    ensures fs[k].raw.Some? && fs[k].raw.value.player.Some?
    ensures Occurrences(fs[k].raw.value.player.value.upgrades, id) <= 1 ==>
      FiresAt(d, fs, commands, k, UpgradeCompleted(id)) ==
        Count(id in fs[k].raw.value.player.value.upgrades && id !in After(d, fs[..k]).upgrades)
    ensures k > 0 ==>
      && fs[k - 1].raw.Some? && fs[k - 1].raw.value.player.Some?
      && After(d, fs[..k]).upgrades == fs[k - 1].raw.value.player.value.upgrades
  {
    hide Turn, Update, Fires, After, Occurrences;
    ListsUnits(d, fs, k);
    if Occurrences(fs[k].raw.value.player.value.upgrades, id) <= 1 {
      TurnAnnouncesUpgrades(After(d, fs[..k]), fs[k], commands, id);
    }
    if k > 0 {
      ExistsByFrame(d, fs, k);
    }
  }

  // ---- Idle units and finished buildings, by frames ----

  /** The last of the units with a tag. */
  function Latest(units: seq<UnitData>, t: Tag): UnitData
    requires t in TagsIn(units)
  {
    if units[|units| - 1].tag == t then units[|units| - 1]
    else
      assert units == units[..|units| - 1] + [units[|units| - 1]];
      Latest(units[..|units| - 1], t)
  }

  lemma {:induction false} IngestedLatest(known: map<Tag, UnitData>, units: seq<UnitData>, gameLoop: nat, t: Tag)
    requires t in TagsIn(units)
    ensures t in Ingest(known, units, gameLoop)
    ensures Ingest(known, units, gameLoop)[t] == Latest(units, t).(isAlive := true, lastSeen := gameLoop)
  {
    var last := |units| - 1;
    assert units == units[..last] + [units[last]];
    if units[last].tag != t { IngestedLatest(known, units[..last], gameLoop, t); }
  }

  /** The fields of a unit that the frame leaves existing. */
  function Shown(f: Frame, t: Tag): UnitData
    requires f.raw.Some? && t in Survivors(f)
  {
    Latest(f.raw.value.units, t)
  }

  predicate Rests(u: UnitData) { u.orders == [] && u.buildProgress >= 1.0 }

  lemma TurnKnows(d: Diff, f: Frame, t: Tag)
    requires Sane(d) && Complete(d, f) && t in Survivors(f)
    ensures t in Turn(d, f).known && Turn(d, f).known[t] == Shown(f, t).(isAlive := true, lastSeen := f.gameLoop)
  {
    IngestedLatest(d.known, f.raw.value.units, f.gameLoop, t);
    hide Ingest, Latest;
  }

  lemma TurnIdles(d: Diff, f: Frame, commands: seq<Tag>, t: Tag)
    requires Sane(d) && Complete(d, f)
    ensures Sane(Update(d, f))
    ensures Fires(Update(d, f), f, commands, UnitIdle(t)) ==
      Count(&& t in Survivors(f) && Shown(f, t).alliance.Own? && Rests(Shown(f, t))
            && (t !in d.existing || !Rests(d.known[t]) || t in commands))
    ensures Fires(Update(d, f), f, commands, BuildingCompleted(t)) ==
      Count(&& t in Survivors(f) && Shown(f, t).alliance.Own? && Shown(f, t).buildProgress >= 1.0
            && t in d.existing && d.known[t].buildProgress < 1.0)
  {
    UpdateKeepsSane(d, f);
    IngestedTags(d.known, f.raw.value.units, f.gameLoop);
    if t in Survivors(f) { IngestedLatest(d.known, f.raw.value.units, f.gameLoop, t); }
    hide Ingest, Latest;
  }

  /** The frame shows the unit, at work or unfinished. */
  predicate ShowsBusy(f: Frame, t: Tag)
    requires f.raw.Some?
  {
    t in Survivors(f) && !Rests(Shown(f, t))
  }

  /** What is known of a unit before step k, when there is a step before it. */
  lemma KnownByFrame(d: Diff, fs: seq<Frame>, k: nat, t: Tag)
    requires Sane(d) && 0 < k <= |fs| && AllComplete(d, fs)
    ensures fs[k - 1].raw.Some? && (t in After(d, fs[..k]).existing <==> t in Survivors(fs[k - 1]))
    ensures t in Survivors(fs[k - 1]) ==>
      After(d, fs[..k]).known[t] == Shown(fs[k - 1], t).(isAlive := true, lastSeen := fs[k - 1].gameLoop)
  {
    StepIsComplete(d, fs, k - 1);
    ListsUnits(d, fs, k - 1);
    ExistsByFrame(d, fs, k);
    AfterSteps(d, fs, k - 1);
    hide *;
    if t in Survivors(fs[k - 1]) { TurnKnows(After(d, fs[..k - 1]), fs[k - 1], t); }
  }

  /** OnUnitIdle fires at step k for the own units that rest in its frame and that the frame
      before does not show, or shows busy, or that were given an order since; completion fires
      for those that the frame before shows unfinished. */
  lemma IdleByFrames(d: Diff, fs: seq<Frame>, commands: seq<Tag>, k: nat, t: Tag)
    requires Sane(d) && 0 < k < |fs| && AllComplete(d, fs)
    ensures fs[k].raw.Some? && fs[k - 1].raw.Some?
    ensures FiresAt(d, fs, commands, k, UnitIdle(t)) ==
      Count(&& t in Survivors(fs[k]) && Shown(fs[k], t).alliance.Own? && Rests(Shown(fs[k], t))
            && (t !in Survivors(fs[k - 1]) || ShowsBusy(fs[k - 1], t) || t in commands))
    ensures FiresAt(d, fs, commands, k, BuildingCompleted(t)) ==
      Count(&& t in Survivors(fs[k]) && Shown(fs[k], t).alliance.Own? && Shown(fs[k], t).buildProgress >= 1.0
            && t in Survivors(fs[k - 1]) && Shown(fs[k - 1], t).buildProgress < 1.0)
  {
    StepIsComplete(d, fs, k);
    ListsUnits(d, fs, k);
    KnownByFrame(d, fs, k, t);
    hide AllComplete, After, Complete, Fires, Update, Survivors, Shown;
    TurnIdles(After(d, fs[..k]), fs[k], commands, t);
  }

  /** OnUnitIdle comes a second time, for a unit that rests in two frames running, exactly when
      it was given an order between them. */
  lemma IdleAgainExactly(d: Diff, fs: seq<Frame>, commands: seq<Tag>, k: nat, t: Tag)
    requires Sane(d) && 0 < k < |fs| && AllComplete(d, fs) && fs[k - 1].raw.Some? && fs[k].raw.Some?
    requires t in Survivors(fs[k - 1]) && Rests(Shown(fs[k - 1], t))
    requires t in Survivors(fs[k]) && Rests(Shown(fs[k], t)) && Shown(fs[k], t).alliance.Own?
    ensures FiresAt(d, fs, commands, k, UnitIdle(t)) > 0 <==> t in commands
  {
    hide FiresAt, AllComplete, Survivors, Shown;
    IdleByFrames(d, fs, commands, k, t);
  }

  /** A run of one unit, at rest in two frames, that is given an order between them. */
  lemma IdleTwice(probe: UnitData)
    requires probe.alliance.Own? && Rests(probe)
    ensures var d := Diff(map[], {}, map[], 0, 0, [], []);
      var fs := [Whole(1, [probe]), Whole(2, [probe])];
      && AllComplete(d, fs)
      && FiresAt(d, fs, [], 0, UnitIdle(probe.tag)) == 1
      && FiresAt(d, fs, [probe.tag], 1, UnitIdle(probe.tag)) == 1
  {
    var d := Diff(map[], {}, map[], 0, 0, [], []);
    var fs := [Whole(1, [probe]), Whole(2, [probe])];
    TwoWholeFrames(d, [probe], [probe]);
    ShowsOnly(1, probe);
    ShowsOnly(2, probe);
    assert fs[..0] == [];
    TurnIdles(d, fs[0], [], probe.tag);
    hide *;
    IdleByFrames(d, fs, [probe.tag], 1, probe.tag);
    FirstFires(d, fs, [], UnitIdle(probe.tag));
  }

  // ---- Enemies that come into view, and deaths, by frames ----

  predicate InView(u: UnitData) { u.alliance.Enemy? && u.display.Visible? }

  lemma TurnEnters(d: Diff, f: Frame, commands: seq<Tag>, t: Tag)
    requires Sane(d) && Complete(d, f)
    ensures Sane(Update(d, f))
    ensures Fires(Update(d, f), f, commands, UnitEnterVision(t)) ==
      Count(t in Survivors(f) && InView(Shown(f, t)) && t !in d.existing)
  {
    UpdateKeepsSane(d, f);
    IngestedTags(d.known, f.raw.value.units, f.gameLoop);
    if t in Survivors(f) { IngestedLatest(d.known, f.raw.value.units, f.gameLoop, t); }
    hide Ingest, Latest;
  }

  /** OnUnitEnterVision fires at step k once for each unit that its frame shows as a visible
      enemy and that the frame before does not show at all. */
  lemma VisionByFrames(d: Diff, fs: seq<Frame>, commands: seq<Tag>, k: nat, t: Tag)
    requires Sane(d) && 0 < k < |fs| && AllComplete(d, fs)
    ensures fs[k].raw.Some? && fs[k - 1].raw.Some?
    ensures FiresAt(d, fs, commands, k, UnitEnterVision(t)) ==
      Count(t in Survivors(fs[k]) && InView(Shown(fs[k], t)) && t !in Survivors(fs[k - 1]))
  {
    StepIsComplete(d, fs, k);
    ListsUnits(d, fs, k);
    KnownByFrame(d, fs, k, t);
    hide AllComplete, After, Complete, Fires, Update, Survivors, Shown;
    TurnEnters(After(d, fs[..k]), fs[k], commands, t);
  }

  /** The frame shows the unit in view. */
  predicate ShowsInView(f: Frame, t: Tag)
    requires f.raw.Some?
  {
    t in Survivors(f) && InView(Shown(f, t))
  }

  /** An enemy that comes into view is announced, and nothing else, except exactly when the frame
      before showed the unit out of view: as a snapshot, hidden, or on another side. */
  lemma VisionExactly(d: Diff, fs: seq<Frame>, commands: seq<Tag>, k: nat, t: Tag)
    requires Sane(d) && 0 < k < |fs| && AllComplete(d, fs) && fs[k - 1].raw.Some? && fs[k].raw.Some?
    ensures FiresAt(d, fs, commands, k, UnitEnterVision(t)) == Count(ShowsInView(fs[k], t) && !ShowsInView(fs[k - 1], t))
      <==> !(ShowsInView(fs[k], t) && t in Survivors(fs[k - 1]) && !InView(Shown(fs[k - 1], t)))
  {
    hide FiresAt, AllComplete, Survivors, Shown;
    VisionByFrames(d, fs, commands, k, t);
  }

  /** A run of one enemy, first a snapshot and then visible, that is never announced. */
  lemma SnapshotNeverAnnounced(probe: UnitData)
    requires probe.alliance.Enemy?
    ensures var d := Diff(map[], {}, map[], 0, 0, [], []);
      var fs := [Whole(1, [probe.(display := Snapshot)]), Whole(2, [probe.(display := Visible)])];
      && AllComplete(d, fs) && fs[1].raw.Some? && ShowsInView(fs[1], probe.tag)
      && FiresAt(d, fs, [], 0, UnitEnterVision(probe.tag)) == 0
      && FiresAt(d, fs, [], 1, UnitEnterVision(probe.tag)) == 0
  {
    var d := Diff(map[], {}, map[], 0, 0, [], []);
    var before, now := probe.(display := Snapshot), probe.(display := Visible);
    var fs := [Whole(1, [before]), Whole(2, [now])];
    TwoWholeFrames(d, [before], [now]);
    ShowsOnly(1, before);
    ShowsOnly(2, now);
    TurnEnters(d, fs[0], [], probe.tag);
    assert !InView(before) && InView(now) && fs[1].raw.Some?;
    assert ShowsInView(fs[1], probe.tag);
    hide *;
    VisionByFrames(d, fs, [], 1, probe.tag);
    FirstFires(d, fs, [], UnitEnterVision(probe.tag));
  }

  /** Some of the first frames lists the unit. */
  ghost predicate Seen(fs: seq<Frame>, t: Tag) {
    exists m :: 0 <= m < |fs| && fs[m].raw.Some? && t in TagsIn(fs[m].raw.value.units)
  }

  lemma TurnSees(d: Diff, f: Frame, t: Tag)
    requires Sane(d) && Complete(d, f)
    ensures t in Turn(d, f).known <==> t in d.known || t in TagsIn(f.raw.value.units)
    ensures t in Update(d, f).known <==> t in d.known || t in TagsIn(f.raw.value.units)
  {
    IngestedTags(d.known, f.raw.value.units, f.gameLoop);
    hide Ingest, TagsIn;
  }

  lemma SeenGrows(fs: seq<Frame>, k: nat, t: Tag)
    requires k < |fs| && fs[k].raw.Some?
    ensures Seen(fs[..k + 1], t) <==> Seen(fs[..k], t) || t in TagsIn(fs[k].raw.value.units)
  {
    hide TagsIn;
    if Seen(fs[..k], t) {
      var m :| 0 <= m < k && fs[..k][m].raw.Some? && t in TagsIn(fs[..k][m].raw.value.units);
      assert fs[..k + 1][m] == fs[m];
    }
    assert fs[..k + 1][k] == fs[k];
    if Seen(fs[..k + 1], t) {
      var m :| 0 <= m < k + 1 && fs[..k + 1][m].raw.Some? && t in TagsIn(fs[..k + 1][m].raw.value.units);
      if m < k { assert fs[..k][m] == fs[m]; }
    }
  }

  lemma NoneSeen(d: Diff, fs: seq<Frame>, k: nat, t: Tag)
    requires Sane(d) && k == 0
    ensures After(d, fs[..k]) == d && !Seen(fs[..k], t)
  {
    hide Turn, TagsIn;
    assert fs[..k] == [];
  }

  lemma KnownStep(d: Diff, fs: seq<Frame>, k: nat, t: Tag)
    requires Sane(d) && k < |fs| && AllComplete(d, fs)
    ensures fs[k].raw.Some?
    ensures t in After(d, fs[..k + 1]).known <==> t in After(d, fs[..k]).known || t in TagsIn(fs[k].raw.value.units)
  {
    hide *;
    StepIsComplete(d, fs, k);
    ListsUnits(d, fs, k);
    AfterSteps(d, fs, k);
    TurnSees(After(d, fs[..k]), fs[k], t);
  }

  /** What is known is what some frame listed. */
  lemma {:induction false} KnownIsSeen(d: Diff, fs: seq<Frame>, k: nat, t: Tag)
    requires Sane(d) && k <= |fs| && AllComplete(d, fs)
    ensures t in After(d, fs[..k]).known <==> t in d.known || Seen(fs[..k], t)
  {
    hide *;
    if k == 0 {
      NoneSeen(d, fs, k, t);
    } else {
      KnownIsSeen(d, fs, k - 1, t);
      KnownStep(d, fs, k - 1, t);
      SeenGrows(fs, k - 1, t);
    }
  }

  /** OnUnitDestroyed fires at step k for each time its frame reports the unit dead, if any frame
      so far listed the unit, whose side does not matter. */
  lemma DestroyedByFrames(d: Diff, fs: seq<Frame>, commands: seq<Tag>, k: nat, t: Tag)
    requires Sane(d) && k < |fs| && AllComplete(d, fs)
    ensures FiresAt(d, fs, commands, k, UnitDestroyed(t)) ==
      if t in d.known || Seen(fs[..k + 1], t) then Occurrences(DeadIn(fs[k]), t) else 0
  {
    hide AllComplete, Seen, TagsIn;
    StepIsComplete(d, fs, k);
    ListsUnits(d, fs, k);
    KnownIsSeen(d, fs, k, t);
    SeenGrows(fs, k, t);
    hide After;
    MovesLoop(After(d, fs[..k]), fs[k]);
    TurnSees(After(d, fs[..k]), fs[k], t);
    hide Complete, Update;
  }

  lemma MovesLoop(d: Diff, f: Frame)
    requires Sane(d) && Complete(d, f)
    ensures Sane(Update(d, f)) && Issues(Update(d, f))
  {
    UpdateKeepsSane(d, f);
  }

  /** Only deaths of own units are announced, each as often as it is reported, except exactly when
      the frame reports a unit dead that is known to be on another side. */
  lemma DestroyedExactly(d: Diff, fs: seq<Frame>, commands: seq<Tag>, k: nat, t: Tag)
    requires Sane(d) && k < |fs| && AllComplete(d, fs)
    ensures var after := After(d, fs[..k + 1]);
      FiresAt(d, fs, commands, k, UnitDestroyed(t)) ==
        (if t in after.known && after.known[t].alliance.Own? then Occurrences(DeadIn(fs[k]), t) else 0)
      <==> !(t in DeadIn(fs[k]) && t in after.known && !after.known[t].alliance.Own?)
  {
    assert Occurrences(DeadIn(fs[k]), t) > 0 <==> t in DeadIn(fs[k]);
    hide *;
    DestroyedByFrames(d, fs, commands, k, t);
    KnownIsSeen(d, fs, k + 1, t);
  }

  /** A run of one enemy that is seen and dies, which is announced. */
  lemma EnemyDeathIsAnnounced(probe: UnitData)
    requires probe.alliance.Enemy?
    ensures var d := Diff(map[], {}, map[], 0, 0, [], []);
      var fs := [Whole(1, [probe]), Frame(2, true, Some(Raw([], [probe.tag], Some(PlayerRaw(true, [])))), [])];
      AllComplete(d, fs) && FiresAt(d, fs, [], 1, UnitDestroyed(probe.tag)) == 1
  {
    var d := Diff(map[], {}, map[], 0, 0, [], []);
    var fs := [Whole(1, [probe]), Frame(2, true, Some(Raw([], [probe.tag], Some(PlayerRaw(true, [])))), [])];
    TwoFrames(d, fs);
    assert fs[..2] == fs && probe in [probe] && probe.tag in TagsIn(fs[0].raw.value.units);
    assert Seen(fs[..2], probe.tag);
    assert Occurrences(DeadIn(fs[1]), probe.tag) == 1;
    hide *;
    DestroyedByFrames(d, fs, [], 1, probe.tag);
  }

  // ---- Which units are alive, by frames ----

  /** The frames from i up to k do not report the unit dead. */
  ghost predicate NotDeadIn(fs: seq<Frame>, t: Tag, i: nat, k: nat)
    requires k <= |fs|
  {
    forall m :: i <= m < k ==> t !in DeadIn(fs[m])
  }

  ghost predicate Alive(d: Diff, t: Tag) { t in d.known && d.known[t].isAlive }

  lemma TurnKeepsAlive(d: Diff, f: Frame, t: Tag)
    requires Sane(d) && Complete(d, f)
    ensures Alive(Turn(d, f), t) <==> (Alive(d, t) || t in TagsIn(f.raw.value.units)) && t !in DeadIn(f)
  {
    var units := f.raw.value.units;
    UpdateKeepsSane(d, f);
    IngestedTags(d.known, units, f.gameLoop);
    if t in TagsIn(units) { IngestedLatest(d.known, units, f.gameLoop, t); } else { IngestedOthers(d.known, units, f.gameLoop, t); }
    hide Ingest, Latest, TagsIn;
  }

  lemma {:induction false} IngestedOthers(known: map<Tag, UnitData>, units: seq<UnitData>, gameLoop: nat, t: Tag)
    requires t !in TagsIn(units)
    ensures t in Ingest(known, units, gameLoop) <==> t in known
    ensures t in known ==> Ingest(known, units, gameLoop)[t] == known[t]
  {
    if units != [] {
      var last := |units| - 1;
      assert units == units[..last] + [units[last]];
      assert units[last].tag in TagsIn(units);
      IngestedOthers(known, units[..last], gameLoop, t);
    }
  }

  ghost predicate ListedSince(fs: seq<Frame>, t: Tag, j: nat, k: nat)
    requires k <= |fs|
  {
    j < k && fs[j].raw.Some? && t in TagsIn(fs[j].raw.value.units) && NotDeadIn(fs, t, j, k)
  }

  /** A unit is alive after step k - 1 exactly if some frame listed it, or it was alive before all,
      and no frame from then on reported it dead. */
  lemma {:induction false} AliveByFrames(d: Diff, fs: seq<Frame>, k: nat, t: Tag)
    requires Sane(d) && k <= |fs| && AllComplete(d, fs)
    ensures Alive(After(d, fs[..k]), t) <==> (Alive(d, t) && NotDeadIn(fs, t, 0, k)) || exists j: nat :: ListedSince(fs, t, j, k)
  {
    hide *;
    if k == 0 {
      BeforeAnyStep(d, fs, k);
      NoneListedYet(fs, t, k);
    } else {
      AliveByFrames(d, fs, k - 1, t);
      StepIsComplete(d, fs, k - 1);
      ListsUnits(d, fs, k - 1);
      AfterSteps(d, fs, k - 1);
      TurnKeepsAlive(After(d, fs[..k - 1]), fs[k - 1], t);
      ListedOneMore(fs, t, k - 1, k);
    }
  }

  lemma NoneListedYet(fs: seq<Frame>, t: Tag, k: nat)
    requires k == 0
    ensures NotDeadIn(fs, t, 0, k) && !exists j: nat :: ListedSince(fs, t, j, k)
  {
  }

  lemma ListedOneMore(fs: seq<Frame>, t: Tag, k: nat, next: nat)
    requires k < |fs| && fs[k].raw.Some? && next == k + 1
    ensures NotDeadIn(fs, t, 0, next) <==> NotDeadIn(fs, t, 0, k) && t !in DeadIn(fs[k])
    ensures (exists j: nat :: ListedSince(fs, t, j, next)) <==>
      t !in DeadIn(fs[k]) && (t in TagsIn(fs[k].raw.value.units) || exists j: nat :: ListedSince(fs, t, j, k))
  {
    hide DeadIn, TagsIn;
    assert t in TagsIn(fs[k].raw.value.units) && t !in DeadIn(fs[k]) ==> ListedSince(fs, t, k, next);
    forall j: nat | ListedSince(fs, t, j, k) && t !in DeadIn(fs[k]) ensures ListedSince(fs, t, j, next) {
    }
    forall j: nat | ListedSince(fs, t, j, next) && j < k ensures ListedSince(fs, t, j, k) {
    }
    if j: nat :| ListedSince(fs, t, j, next) {
      assert t !in DeadIn(fs[k]);
      assert j < k ==> ListedSince(fs, t, j, k);
    }
  }

  // ---- Alerts and the step itself, by frames ----

  /** The places at which a frame carries an alert. */
  function AlertsAt(f: Frame, alert: Alert): set<nat> { set i: nat | i < |f.alerts| && f.alerts[i] == alert }

  lemma {:induction false} AlertsCount(alerts: seq<Alert>, alert: Alert)
    ensures multiset(alerts)[alert] == |(set i: nat | i < |alerts| && alerts[i] == alert)|
    decreases |alerts|
  {
    if alerts != [] {
      var last := |alerts| - 1;
      AlertsCount(alerts[..last], alert);
      assert alerts == alerts[..last] + [alerts[last]];
      var places, before := set i: nat | i < |alerts| && alerts[i] == alert, set i: nat | i < last && alerts[..last][i] == alert;
      assert places == if alerts[last] == alert then before + {last} else before;
    }
  }

  lemma TurnAlerts(d: Diff, f: Frame, commands: seq<Tag>)
    requires Sane(d) && Complete(d, f)
    ensures Sane(Update(d, f))
    ensures Fires(Update(d, f), f, commands, NuclearLaunchDetected) == |AlertsAt(f, NuclearLaunch)|
    ensures Fires(Update(d, f), f, commands, NydusDetected) == |AlertsAt(f, NydusWorm)|
    ensures Fires(Update(d, f), f, commands, OnStep) == 1
  {
    UpdateKeepsSane(d, f);
    AlertsCount(f.alerts, NuclearLaunch);
    AlertsCount(f.alerts, NydusWorm);
  }

  /** In any run of complete frames each step calls OnNuclearLaunchDetected and OnNydusDetected
      once for every such alert of its frame, not at all without one, and OnStep once. */
  lemma AlertsByFrames(d: Diff, fs: seq<Frame>, commands: seq<Tag>, k: nat)
    requires Sane(d) && k < |fs| && AllComplete(d, fs)
    ensures FiresAt(d, fs, commands, k, NuclearLaunchDetected) == |AlertsAt(fs[k], NuclearLaunch)|
    ensures FiresAt(d, fs, commands, k, NydusDetected) == |AlertsAt(fs[k], NydusWorm)|
    ensures forall alert :: alert !in fs[k].alerts ==> |AlertsAt(fs[k], alert)| == 0
    ensures FiresAt(d, fs, commands, k, OnStep) == 1
  {
    StepIsComplete(d, fs, k);
    hide After, Complete, Fires, Update;
    TurnAlerts(After(d, fs[..k]), fs[k], commands);
    forall alert | alert !in fs[k].alerts ensures AlertsAt(fs[k], alert) == {} {
    }
  }

  // ---- Small runs ----

  /** A whole frame with some units. */
  function Whole(gameLoop: nat, units: seq<UnitData>): Frame {
    Frame(gameLoop, true, Some(Raw(units, [], Some(PlayerRaw(true, [])))), [])
  }

  lemma ShowsOnly(gameLoop: nat, probe: UnitData)
    ensures var f := Whole(gameLoop, [probe]); f.raw.Some? && probe.tag in Survivors(f) && Shown(f, probe.tag) == probe
  {
    assert probe in [probe];
    assert probe.tag in TagsIn([probe]);
  }

  /** Two frames whose loops go up are complete when each is whole. */
  lemma TwoFrames(d: Diff, fs: seq<Frame>)
    requires Sane(d) && |fs| == 2 && d.currentLoop != fs[0].gameLoop && fs[0].gameLoop != fs[1].gameLoop
    requires forall k :: 0 <= k < 2 ==>
      fs[k].scoreOk && fs[k].raw.Some? && fs[k].raw.value.player.Some? && fs[k].raw.value.player.value.hasCamera
    ensures AllComplete(d, fs)
  {
    assert fs[..0] == [] && After(d, fs[..0]) == d;
    AfterSteps(d, fs, 0);
    LoopMoves(d, fs[0]);
    hide Turn, After;
  }

  lemma LoopMoves(d: Diff, f: Frame)
    requires Sane(d) && f.scoreOk
    ensures Turn(d, f).currentLoop == f.gameLoop
  {
    UpdateKeepsSane(d, f);
  }

  lemma TwoWholeFrames(d: Diff, first: seq<UnitData>, second: seq<UnitData>)
    requires Sane(d) && d.currentLoop == 0
    ensures AllComplete(d, [Whole(1, first), Whole(2, second)])
  {
    TwoFrames(d, [Whole(1, first), Whole(2, second)]);
  }

  /** What fires at the first step. */
  lemma FirstFires(d: Diff, fs: seq<Frame>, commands: seq<Tag>, e: Event)
    requires Sane(d) && fs != []
    ensures Sane(Update(d, fs[0])) && FiresAt(d, fs, commands, 0, e) == Fires(Update(d, fs[0]), fs[0], commands, e)
  {
    UpdateKeepsSane(d, fs[0]);
    assert fs[..0] == [] && After(d, fs[..0]) == d;
    hide Fires, Update;
  }

  // ---- Frames that are not complete ----

  /** The frame is listed: its units become the existing ones. */
  predicate Listed(f: Frame) { f.scoreOk && f.raw.Some? }

  /** The frame is taken in to its end, with the upgrades. */
  predicate Ends(f: Frame) { Listed(f) && f.raw.value.player.Some? && f.raw.value.player.value.hasCamera }

  lemma LastTurn(d: Diff, fs: seq<Frame>)
    requires Sane(d) && fs != []
    ensures After(d, fs) == Turn(After(d, fs[..|fs| - 1]), fs[|fs| - 1])
  {
  }

  /** In any run of any frames, the loop counters are those of the last frame with a good score
      and of the one before it. */
  lemma {:induction false} LastScoreDecides(d: Diff, fs: seq<Frame>, j: nat)
    requires Sane(d) && j < |fs| && fs[j].scoreOk && forall m :: j < m < |fs| ==> !fs[m].scoreOk
    ensures After(d, fs).currentLoop == fs[j].gameLoop && After(d, fs).previousLoop == After(d, fs[..j]).currentLoop
    decreases |fs|
  {
    hide After, DeadIn;
    LastTurn(d, fs);
    var last := |fs| - 1;
    UpdateKeepsSane(After(d, fs[..last]), fs[last]);
    if j < last {
      LastScoreDecides(d, fs[..last], j);
      assert fs[..last][..j] == fs[..j];
    }
  }

  /** The copy that units are compared with holds what existed before the last frame that was
      listed, as it was known then. */
  lemma {:induction false} LastListDecides(d: Diff, fs: seq<Frame>, j: nat)
    requires Sane(d) && j < |fs| && Listed(fs[j]) && forall m :: j < m < |fs| ==> !Listed(fs[m])
    ensures After(d, fs).previous.Keys == After(d, fs[..j]).existing
    ensures forall t :: t in After(d, fs).previous ==> After(d, fs).previous[t] == After(d, fs[..j]).known[t]
    decreases |fs|
  {
    hide After, DeadIn;
    LastTurn(d, fs);
    var last := |fs| - 1;
    UpdateKeepsSane(After(d, fs[..last]), fs[last]);
    if j < last {
      LastListDecides(d, fs[..last], j);
      assert fs[..last][..j] == fs[..j];
    }
  }

  /** The upgrades are those of the last frame taken in to its end; they are compared with the
      ones that were there before it. */
  lemma {:induction false} LastEndDecides(d: Diff, fs: seq<Frame>, j: nat)
    requires Sane(d) && j < |fs| && Ends(fs[j]) && forall m :: j < m < |fs| ==> !Ends(fs[m])
    ensures After(d, fs).upgrades == fs[j].raw.value.player.value.upgrades
    ensures After(d, fs).upgradesPrevious == After(d, fs[..j]).upgrades
    decreases |fs|
  {
    hide After, DeadIn;
    LastTurn(d, fs);
    var last := |fs| - 1;
    UpdateKeepsSane(After(d, fs[..last]), fs[last]);
    if j < last {
      LastEndDecides(d, fs[..last], j);
      assert fs[..last][..j] == fs[..j];
    }
  }

  /** A step fires anything, and then OnStep, exactly if the two loop counters differ. */
  lemma StepsExactly(d: Diff, fs: seq<Frame>, commands: seq<Tag>, k: nat)
    requires Sane(d) && k < |fs|
    ensures var after := After(d, fs[..k + 1]);
      && FiresAt(d, fs, commands, k, OnStep) == (if after.currentLoop != after.previousLoop then 1 else 0)
      && forall e :: FiresAt(d, fs, commands, k, e) > 0 ==> after.currentLoop != after.previousLoop
  {
    hide After;
    AfterSteps(d, fs, k);
    UpdateKeepsSane(After(d, fs[..k]), fs[k]);
    hide Update;
  }

  /** The creations that a turn announces are the own units it adds. */
  ghost predicate AnnouncesEntries(d: Diff, f: Frame, commands: seq<Tag>)
    requires Sane(d) && Sane(Update(d, f))
  {
    var u := Update(d, f);
    forall t :: Fires(u, f, commands, UnitCreated(t)) ==
      Count(t in Turn(d, f).existing && t !in d.existing && u.known[t].alliance.Own?)
  }

  /** The frame lists t as an own unit, by its last entry. */
  predicate ListsOwn(f: Frame, t: Tag) {
    f.raw.Some? && t in TagsIn(f.raw.value.units) && Latest(f.raw.value.units, t).alliance.Own?
  }

  /** An own unit from before that the frame does not report dead. */
  predicate StaysOwn(d: Diff, f: Frame, t: Tag)
    requires Sane(d)
  {
    t in d.existing && t !in DeadIn(f) && d.known[t].alliance.Own?
  }

  lemma TakenInExactly(d: Diff, f: Frame, commands: seq<Tag>)
    requires Sane(d) && f.scoreOk && f.raw.Some? && Sane(Update(d, f))
    ensures AnnouncesEntries(d, f, commands) <==> f.gameLoop != d.currentLoop || forall t :: ListsOwn(f, t) ==> t in d.existing
  {
    var u, units := Update(d, f), f.raw.value.units;
    IngestedTags(d.known, units, f.gameLoop);
    forall t ensures ListsOwn(f, t) <==> t in u.existing && u.known[t].alliance.Own? {
      if t in TagsIn(units) { IngestedLatest(d.known, units, f.gameLoop, t); }
    }
    hide Ingest, Latest, TagsIn, ListsOwn;
    assert u.previous.Keys == d.existing;
    if f.gameLoop == d.currentLoop {
      assert forall t :: Fires(u, f, commands, UnitCreated(t)) == 0 && Turn(d, f) == u;
    }
  }

  lemma NotTakenInExactly(d: Diff, f: Frame, commands: seq<Tag>)
    requires Sane(d) && !(f.scoreOk && f.raw.Some?) && Sane(Update(d, f))
    ensures AnnouncesEntries(d, f, commands) <==>
      (if f.scoreOk then f.gameLoop == d.currentLoop else d.currentLoop == d.previousLoop)
      || forall t :: StaysOwn(d, f, t) ==> t in d.previous
  {
    var u := Update(d, f);
    assert u.known == d.known && u.existing == d.existing && u.previous == d.previous;
    forall t ensures Fires(u, f, commands, UnitCreated(t)) == Count(Issues(u) && StaysOwn(d, f, t) && t !in d.previous) {
    }
    assert Turn(d, f).existing <= d.existing;
    if AnnouncesEntries(d, f, commands) {
      forall t ensures Fires(u, f, commands, UnitCreated(t)) == 0 {
      }
    }
  }

  /** For any state and any frame, what the caller can tell beforehand. Units that are taken in:
      their creations are announced rightly if the loop moves or no own unit enters. Units that
      are not, because the score or the raw data is missing: the same units are compared with
      an old copy, so it is right only if the loop stands still (for a bad score, stood still
      before) or the copy has all own units that stay. */
  lemma AnnouncesEntriesExactly(d: Diff, f: Frame, commands: seq<Tag>)
    requires Sane(d)
    ensures Sane(Update(d, f))
    ensures f.scoreOk && f.raw.Some? ==>
      (AnnouncesEntries(d, f, commands) <==> f.gameLoop != d.currentLoop || forall t :: ListsOwn(f, t) ==> t in d.existing)
    ensures !(f.scoreOk && f.raw.Some?) ==>
      (AnnouncesEntries(d, f, commands) <==>
         (if f.scoreOk then f.gameLoop == d.currentLoop else d.currentLoop == d.previousLoop)
         || forall t :: StaysOwn(d, f, t) ==> t in d.previous)
  {
    UpdateKeepsSane(d, f);
    if f.scoreOk && f.raw.Some? {
      TakenInExactly(d, f, commands);
    } else {
      NotTakenInExactly(d, f, commands);
    }
  }

  /** A frame without raw data announces the unit of the frame before once more. */
  lemma MissingRawDataAnnouncesTwice(probe: UnitData)
    requires probe.alliance.Own?
    ensures var d := Diff(map[], {}, map[], 0, 0, [], []);
      var fs := [Frame(1, true, Some(Raw([probe], [], Some(PlayerRaw(true, [])))), []), Frame(2, true, None, [])];
      && FiresAt(d, fs, [], 0, UnitCreated(probe.tag)) == 1
      && FiresAt(d, fs, [], 1, UnitCreated(probe.tag)) == 1
      && probe.tag in After(d, fs[..1]).existing
  {
    var d := Diff(map[], {}, map[], 0, 0, [], []);
    var f0, f1 := Frame(1, true, Some(Raw([probe], [], Some(PlayerRaw(true, [])))), []), Frame(2, true, None, []);
    var fs := [f0, f1];
    assert fs[..0] == [] && fs[..1] == [f0];
    assert After(d, [f0]) == Turn(After(d, []), f0) by { assert [f0][..0] == []; }
    IngestedTags(map[], [probe], 1);
    assert probe in [probe];
  }
}
