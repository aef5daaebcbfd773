/** src/sc2api/sc2_unit.cc: a paged allocator that never frees, with two indexes over it. */
module UnitPools {

  type Tag = nat

  datatype Alliance = Own | Ally | Neutral | Enemy

  datatype Display = Visible | Snapshot | Hidden

  /** The fields of a unit that the library itself reads. */
  datatype UnitData = UnitData(tag: Tag, alliance: Alliance, display: Display, buildProgress: real,
                               orders: seq<nat>, isAlive: bool, lastSeen: nat)

  const NO_UNIT := UnitData(0, Neutral, Hidden, 0.0, [], false, 0)

  /** A unit in memory. Clients keep pointers to it, so where it stands matters. */
  class Unit {
    var data: UnitData

    constructor ()
    {
      data := NO_UNIT;
    }
  }

  // ---- The pool as a value: tags in the order of their first appearance ----

  datatype Pool = Pool(order: seq<Tag>, existing: set<Tag>)

  datatype PoolOp = Create(tag: Tag) | Dead(tag: Tag) | Clear

  function Apply(p: Pool, op: PoolOp): Pool {
    match op
    case Create(tag) => Pool(if tag in p.order then p.order else p.order + [tag], p.existing + {tag})
    case Dead(tag) => if tag in p.order then p.(existing := p.existing - {tag}) else p
    case Clear => p.(existing := {})
  }

  function ApplyAll(p: Pool, ops: seq<PoolOp>): Pool
    decreases |ops|
  {
    if ops == [] then p else ApplyAll(Apply(p, ops[0]), ops[1..])
  }

  ghost predicate Distinct<T(!new)>(s: seq<T>) { forall i, j :: 0 <= i < j < |s| ==> s[i] != s[j] }

  ghost predicate Sound(p: Pool) { Distinct(p.order) && forall t :: t in p.existing ==> t in p.order }

  /** A page and a place on it. */
  type Slot = (nat, nat)

  /** The slot of the k-th allocation, as the index is incremented. */
  function SlotOf(k: nat, entrySize: nat): Slot {
    if k == 0 then (0, 0) else Increment(SlotOf(k - 1, entrySize), entrySize)
  }

  function Increment(slot: Slot, entrySize: nat): Slot {
    if slot.1 + 1 == entrySize then (slot.0 + 1, 0) else (slot.0, slot.1 + 1)
  }

  /** Allocation is row-major: page k / entrySize, place k % entrySize. */
  lemma {:induction false} SlotIsRowMajor(k: nat, entrySize: nat)
    requires entrySize > 0
    ensures SlotOf(k, entrySize).1 < entrySize
    ensures SlotOf(k, entrySize).0 * entrySize + SlotOf(k, entrySize).1 == k
  {
    if k > 0 {
      SlotIsRowMajor(k - 1, entrySize);
      var s := SlotOf(k - 1, entrySize);
      assert (s.0 + 1) * entrySize == s.0 * entrySize + entrySize;
    }
  }

  lemma SlotsDiffer(j: nat, k: nat, entrySize: nat)
    requires entrySize > 0 && j != k
    ensures SlotOf(j, entrySize) != SlotOf(k, entrySize)
  {
    SlotIsRowMajor(j, entrySize);
    SlotIsRowMajor(k, entrySize);
  }

  // ---- Whole runs ----

  /** The tags that ops create. */
  function Created(ops: seq<PoolOp>): set<Tag> {
    if ops == [] then {} else (if ops[0].Create? then {ops[0].tag} else {}) + Created(ops[1..])
  }

  lemma ApplyKeepsSound(p: Pool, op: PoolOp)
    requires Sound(p)
    ensures Sound(Apply(p, op)) && p.order <= Apply(p, op).order
  {
  }

  /** Over any run the pool stays sound, a tag keeps its place in the allocation order, through
      death and re-creation too, and exactly the created tags are known. */
  lemma {:induction false} RunKeepsSlots(p: Pool, ops: seq<PoolOp>)
    requires Sound(p)
    ensures Sound(ApplyAll(p, ops)) && p.order <= ApplyAll(p, ops).order
    ensures forall t :: t in ApplyAll(p, ops).order <==> t in p.order || t in Created(ops)
    decreases |ops|
  {
    if ops != [] {
      ApplyKeepsSound(p, ops[0]);
      RunKeepsSlots(Apply(p, ops[0]), ops[1..]);
    }
  }

  /** The operation makes the tag exist no more. */
  predicate Removes(op: PoolOp, t: Tag) { op.Clear? || op == Dead(t) }

  /** From operation i on, the tag is not removed. */
  ghost predicate StaysFrom(ops: seq<PoolOp>, t: Tag, i: nat) { forall j :: i <= j < |ops| ==> !Removes(ops[j], t) }

  /** A tag exists after a run exactly if it was created, or existed to begin with, and nothing
      removed it since. */
  lemma {:induction false} ExistsSinceCreated(p: Pool, ops: seq<PoolOp>, t: Tag)
    requires Sound(p)
    ensures t in ApplyAll(p, ops).existing <==>
      (t in p.existing && StaysFrom(ops, t, 0)) || exists i :: 0 <= i < |ops| && ops[i] == Create(t) && StaysFrom(ops, t, i + 1)
    decreases |ops|
  {
    if ops != [] {
      var q, rest := Apply(p, ops[0]), ops[1..];
      ApplyKeepsSound(p, ops[0]);
      ExistsSinceCreated(q, rest, t);
      assert StaysFrom(rest, t, 0) <==> StaysFrom(ops, t, 1) by { StaysInRest(ops, t, 0); }
      if i :| 0 <= i < |rest| && rest[i] == Create(t) && StaysFrom(rest, t, i + 1) {
        StaysInRest(ops, t, i + 1);
        assert ops[i + 1] == Create(t);
      }
      if i :| 0 < i < |ops| && ops[i] == Create(t) && StaysFrom(ops, t, i + 1) {
        StaysInRest(ops, t, i);
        assert rest[i - 1] == Create(t);
      }
      assert StaysFrom(ops, t, 0) <==> !Removes(ops[0], t) && StaysFrom(ops, t, 1);
    }
  }

  lemma StaysInRest(ops: seq<PoolOp>, t: Tag, i: nat)
    requires i < |ops|
    ensures StaysFrom(ops[1..], t, i) <==> StaysFrom(ops, t, i + 1)
  {
    if StaysFrom(ops[1..], t, i) {
      forall j | i + 1 <= j < |ops| ensures !Removes(ops[j], t) {
        assert ops[1..][j - 1] == ops[j];
      }
    }
  }

  function TagsOf(s: seq<Tag>): set<Tag> { set t | t in s }

  lemma {:induction false} DistinctCount(s: seq<Tag>)
    requires Distinct(s)
    ensures |TagsOf(s)| == |s|
    decreases |s|
  {
    if s != [] {
      var r, x := s[..|s| - 1], s[|s| - 1];
      DistinctCount(r);
      assert s == r + [x] && x !in TagsOf(r);
      assert TagsOf(s) == TagsOf(r) + {x};
    }
  }

  /** From the empty pool, as many slots are handed out as there are different tags created. */
  lemma SlotsCountTags(ops: seq<PoolOp>)
    ensures |ApplyAll(Pool([], {}), ops).order| == |Created(ops)|
  {
    RunKeepsSlots(Pool([], {}), ops);
    DistinctCount(ApplyAll(Pool([], {}), ops).order);
    assert TagsOf(ApplyAll(Pool([], {}), ops).order) == Created(ops);
  }

  // ---- The pool as it stands in memory ----

  /** Pages of entrySize units each, all different. */
  ghost predicate PagesValid(pages: seq<seq<Unit>>, entrySize: nat) {
    && entrySize > 0
    && (forall p :: 0 <= p < |pages| ==> |pages[p]| == entrySize)
    && (forall s: Slot, t: Slot :: HasSlot(pages, s) && HasSlot(pages, t) && s != t ==> At(pages, s) != At(pages, t))
  }

  /** The pages end with the one the index points into, once that one is in use. */
  ghost predicate IndexValid(pages: seq<seq<Unit>>, entrySize: nat, index: Slot, count: nat) {
    index == SlotOf(count, entrySize) && |pages| == index.0 + (if index.1 > 0 then 1 else 0)
  }

  ghost predicate HasSlot(pages: seq<seq<Unit>>, s: Slot) { s.0 < |pages| && s.1 < |pages[s.0]| }

  ghost function At(pages: seq<seq<Unit>>, s: Slot): Unit
    requires HasSlot(pages, s)
  {
    pages[s.0][s.1]
  }

  /** The k-th tag to appear owns the k-th slot. */
  ghost predicate SlotsValid(pages: seq<seq<Unit>>, entrySize: nat, order: seq<Tag>, tagToUnit: map<Tag, Unit>) {
    && (forall t :: t in tagToUnit <==> t in order)
    && (forall k :: 0 <= k < |order| ==> HasSlot(pages, SlotOf(k, entrySize)))
    && (forall k :: 0 <= k < |order| ==> tagToUnit[order[k]] == At(pages, SlotOf(k, entrySize)))
  }

  ghost predicate ExistingValid(tagToUnit: map<Tag, Unit>, existing: map<Tag, Unit>) {
    forall t :: t in existing ==> t in tagToUnit && existing[t] == tagToUnit[t]
  }

  lemma PageAdded(pages: seq<seq<Unit>>, page: seq<Unit>, entrySize: nat)
    requires PagesValid(pages, entrySize) && |page| == entrySize
    requires forall i, j :: 0 <= i < j < |page| ==> page[i] != page[j]
    requires forall s: Slot, i :: HasSlot(pages, s) && 0 <= i < |page| ==> At(pages, s) != page[i]
    ensures PagesValid(pages + [page], entrySize)
    ensures forall s: Slot :: HasSlot(pages, s) ==> HasSlot(pages + [page], s) && At(pages + [page], s) == At(pages, s)
  {
    var all := pages + [page];
    forall s: Slot, t: Slot | HasSlot(all, s) && HasSlot(all, t) && s != t ensures At(all, s) != At(all, t) {
      if s.0 < |pages| {
        assert At(all, s) == At(pages, s);
      }
      if t.0 < |pages| {
        assert At(all, t) == At(pages, t);
      }
    }
  }

  lemma NewSlotIsFree(pages: seq<seq<Unit>>, entrySize: nat, order: seq<Tag>, tagToUnit: map<Tag, Unit>)
    requires PagesValid(pages, entrySize) && SlotsValid(pages, entrySize, order, tagToUnit)
    requires HasSlot(pages, SlotOf(|order|, entrySize))
    ensures At(pages, SlotOf(|order|, entrySize)) !in tagToUnit.Values
  {
    var unit := At(pages, SlotOf(|order|, entrySize));
    if unit in tagToUnit.Values {
      var t :| t in tagToUnit && tagToUnit[t] == unit;
      var k :| 0 <= k < |order| && order[k] == t;
      SlotsDiffer(k, |order|, entrySize);
      assert false;
    }
  }

  lemma IndexMoves(pages: seq<seq<Unit>>, entrySize: nat, index: Slot, count: nat)
    requires entrySize > 0 && index == SlotOf(count, entrySize) && |pages| == index.0 + 1 && index.1 < entrySize
    ensures IndexValid(pages, entrySize, Increment(index, entrySize), count + 1)
  {
  }

  lemma TagIsNew(pages: seq<seq<Unit>>, entrySize: nat, order: seq<Tag>, tagToUnit: map<Tag, Unit>, tag: Tag)
    requires SlotsValid(pages, entrySize, order, tagToUnit)
    ensures tag in tagToUnit <==> tag in order
    ensures PagesValid(pages, entrySize) ==> forall p :: 0 <= p < |pages| ==> |pages[p]| == entrySize
  {
  }

  lemma TagEntered(pages: seq<seq<Unit>>, entrySize: nat, order: seq<Tag>, tagToUnit: map<Tag, Unit>, tag: Tag)
    requires PagesValid(pages, entrySize) && SlotsValid(pages, entrySize, order, tagToUnit)
    requires HasSlot(pages, SlotOf(|order|, entrySize)) && tag !in order
    ensures SlotsValid(pages, entrySize, order + [tag], tagToUnit[tag := At(pages, SlotOf(|order|, entrySize))])
  {
    var unit := At(pages, SlotOf(|order|, entrySize));
    var all, known := order + [tag], tagToUnit[tag := unit];
    forall k | 0 <= k < |all| ensures HasSlot(pages, SlotOf(k, entrySize)) && known[all[k]] == At(pages, SlotOf(k, entrySize)) {
      if k < |order| {
        assert all[k] == order[k] && order[k] in order;
      }
    }
  }

  lemma ExistingGrows(tagToUnit: map<Tag, Unit>, existing: map<Tag, Unit>, tag: Tag, unit: Unit)
    requires ExistingValid(tagToUnit, existing)
    ensures ExistingValid(tagToUnit[tag := unit], existing[tag := unit])
  {
  }

  class UnitPool {
    const entrySize: nat
    var unitPool: seq<seq<Unit>>
    var availableIndex: Slot
    var tagToUnit: map<Tag, Unit>
    var tagToExistingUnit: map<Tag, Unit>
    ghost var order: seq<Tag>

    constructor (entrySize: nat)
      requires entrySize > 0
      ensures Valid() && Abs() == Pool([], {}) && tagToUnit == map[] && this.entrySize == entrySize && unitPool == []
    {
      this.entrySize := entrySize;
      unitPool, availableIndex := [], (0, 0);
      tagToUnit, tagToExistingUnit, order := map[], map[], [];
    }

    ghost predicate Valid() reads this {
      && PagesValid(unitPool, entrySize)
      && IndexValid(unitPool, entrySize, availableIndex, |order|)
      && Sound(Abs())
      && SlotsValid(unitPool, entrySize, order, tagToUnit)
      && ExistingValid(tagToUnit, tagToExistingUnit)
    }

    /** The units of all pages, handed out or not. */
    ghost function Units(): set<Unit>
      reads this
    {
      set p, i | 0 <= p < |unitPool| && 0 <= i < |unitPool[p]| :: unitPool[p][i]
    }

    ghost function Abs(): Pool reads this { Pool(order, tagToExistingUnit.Keys) }

    function GetUnit(tag: Tag): (unit: Unit?)
      reads this
      ensures if tag in tagToUnit then unit == tagToUnit[tag] else unit == null
    {
      if tag in tagToUnit then tagToUnit[tag] else null
    }

    function GetExistingUnit(tag: Tag): (unit: Unit?)
      reads this
      ensures if UnitExists(tag) then unit == tagToExistingUnit[tag] else unit == null
      ensures Valid() && unit != null ==> tag in tagToUnit && unit == GetUnit(tag)
    {
      if tag in tagToExistingUnit then tagToExistingUnit[tag] else null
    }

    predicate UnitExists(tag: Tag) reads this { tag in tagToExistingUnit }

    /** What the two lookups find in a valid pool: the k-th tag to appear has the unit of the
        k-th slot, for good; other tags have none. */
    lemma LookupsFindSlots(tag: Tag, k: nat)
      requires Valid()
      ensures GetUnit(tag) == null <==> tag !in order
      ensures k < |order| && order[k] == tag ==>
        HasSlot(unitPool, SlotOf(k, entrySize)) && GetUnit(tag) == At(unitPool, SlotOf(k, entrySize))
      ensures GetExistingUnit(tag) == if tag in Abs().existing then GetUnit(tag) else null
    {
      hide PagesValid, IndexValid, Sound, SlotOf;
    }

    /** std::vector<Unit>(ENTRY_SIZE). */
    static method NewPage(size: nat) returns (page: seq<Unit>)
      ensures |page| == size && (forall i :: 0 <= i < size ==> fresh(page[i]))
      ensures forall i, j :: 0 <= i < j < size ==> page[i] != page[j]
    {
      page := [];
      while |page| < size
        invariant |page| <= size && (forall i :: 0 <= i < |page| ==> fresh(page[i]))
        invariant forall i, j :: 0 <= i < j < |page| ==> page[i] != page[j]
      {
        var unit := new Unit();
        page := page + [unit];
      }
    }

    method IncrementIndex()
      modifies this`availableIndex
      ensures availableIndex == Increment(old(availableIndex), entrySize)
    {
      availableIndex := (availableIndex.0, availableIndex.1 + 1);
      if availableIndex.1 == entrySize {
        availableIndex := (availableIndex.0 + 1, 0);
      }
    }

    /** Pages only grow, and slots keep their units. */
    ghost predicate Extends(pages: seq<seq<Unit>>) reads this {
      forall s: Slot :: HasSlot(pages, s) ==> HasSlot(unitPool, s) && At(unitPool, s) == At(pages, s)
    }

    /** A known tag keeps its unit and exists again; a new one gets the next slot, which no
        other tag owns. The units that were there stay where they are. */
    method CreateUnit(tag: Tag) returns (unit: Unit)
      requires Valid()
      modifies this
      ensures Valid() && Abs() == Apply(old(Abs()), Create(tag)) && Extends(old(unitPool))
      ensures tagToUnit == (if tag in old(tagToUnit) then old(tagToUnit) else old(tagToUnit)[tag := unit])
      ensures tagToUnit[tag] == unit && tagToExistingUnit == old(tagToExistingUnit)[tag := unit]
      ensures forall t :: t in tagToUnit && t != tag ==> tagToUnit[t] != unit
      ensures unit in Units() && fresh(Units() - old(Units())) && tagToUnit.Values <= Units()
      ensures tag !in old(tagToUnit) ==>
        HasSlot(unitPool, SlotOf(|old(order)|, entrySize)) && unit == At(unitPool, SlotOf(|old(order)|, entrySize))
    {
      TagIsNew(unitPool, entrySize, order, tagToUnit, tag);
      hide *;
      var existing := GetUnit(tag);
      if existing != null {
        Revive(tag, existing);
        unit := existing;
      } else {
        unit := Allocate(tag);
      }
      UnitsApart(tag);
      UnitsInPages();
    }

    lemma UnitsApart(tag: Tag)
      requires Valid() && tag in tagToUnit
      ensures forall t :: t in tagToUnit && t != tag ==> tagToUnit[t] != tagToUnit[tag]
    {
      forall t | t in tagToUnit && t != tag ensures tagToUnit[t] != tagToUnit[tag] {
        TagsOwnTheirUnits(t, tag);
      }
    }

    lemma UnitsInPages()
      requires Valid()
      ensures tagToUnit.Values <= Units()
    {
      forall t | t in tagToUnit ensures tagToUnit[t] in Units() {
        var k :| 0 <= k < |order| && order[k] == t;
        var s := SlotOf(k, entrySize);
        assert HasSlot(unitPool, s) && unitPool[s.0][s.1] == tagToUnit[t];
      }
    }

    method Allocate(tag: Tag) returns (unit: Unit)
      requires Valid() && tag !in tagToUnit
      modifies this
      ensures Valid() && Abs() == Apply(old(Abs()), Create(tag)) && Extends(old(unitPool))
      ensures tagToUnit == old(tagToUnit)[tag := unit] && unit !in old(tagToUnit).Values
      ensures tagToExistingUnit == old(tagToExistingUnit)[tag := unit]
      ensures HasSlot(unitPool, SlotOf(|old(order)|, entrySize)) && unit == At(unitPool, SlotOf(|old(order)|, entrySize))
      ensures fresh(Units() - old(Units()))
    {
      hide PagesValid, SlotsValid, Sound, ExistingValid, SlotOf, At, HasSlot, Apply, Valid, Ready;
      Grow();
      unit := TakeSlot(tag);
    }

    method Grow()
      requires Valid()
      modifies this`unitPool
      ensures Ready() && Extends(old(unitPool)) && fresh(Units() - old(Units()))
    {
      IndexOrGrow();
      if |unitPool| == 0 || |unitPool| == availableIndex.0 {
        hide *;
        AddPage();
      }
    }

    lemma IndexOrGrow()
      requires Valid()
      ensures |unitPool| == availableIndex.0 || Ready()
    {
      hide PagesValid, SlotsValid, Sound, ExistingValid, SlotOf;
    }

    method Revive(tag: Tag, unit: Unit)
      requires Valid() && tag in tagToUnit && tagToUnit[tag] == unit
      modifies this`tagToExistingUnit
      ensures Valid() && Abs() == Apply(old(Abs()), Create(tag))
      ensures tagToExistingUnit == old(tagToExistingUnit)[tag := unit]
    {
      TagIsNew(unitPool, entrySize, order, tagToUnit, tag);
      ApplyKeepsSound(Abs(), Create(tag));
      hide PagesValid, SlotsValid, Sound, IndexValid;
      ghost var existing := tagToExistingUnit;
      tagToExistingUnit := tagToExistingUnit[tag := unit];
      assert tagToExistingUnit.Keys == existing.Keys + {tag};
    }

    /** The index points into the last page. */
    ghost predicate Ready() reads this {
      && PagesValid(unitPool, entrySize) && availableIndex == SlotOf(|order|, entrySize)
      && |unitPool| == availableIndex.0 + 1
      && Sound(Abs()) && SlotsValid(unitPool, entrySize, order, tagToUnit) && ExistingValid(tagToUnit, tagToExistingUnit)
    }

    /** A page of units that nobody holds yet. */
    method AddPage()
      requires Valid() && |unitPool| == availableIndex.0
      modifies this`unitPool
      ensures Ready() && Extends(old(unitPool)) && fresh(Units() - old(Units()))
    {
      var page := NewPage(entrySize);
      assert forall s: Slot, i :: HasSlot(unitPool, s) && 0 <= i < |page| ==> At(unitPool, s) != page[i];
      PageAdded(unitPool, page, entrySize);
      unitPool := unitPool + [page];
    }

    /** Hands the unit at the index to a new tag, and moves the index on. */
    method TakeSlot(tag: Tag) returns (unit: Unit)
      requires Ready() && tag !in tagToUnit
      modifies this`tagToUnit, this`tagToExistingUnit, this`availableIndex, this`order
      ensures Valid() && Abs() == Apply(old(Abs()), Create(tag)) && order == old(order) + [tag]
      ensures unit !in old(tagToUnit).Values
      ensures HasSlot(unitPool, SlotOf(|old(order)|, entrySize)) && unit == At(unitPool, SlotOf(|old(order)|, entrySize))
      ensures tagToUnit == old(tagToUnit)[tag := unit] && tagToExistingUnit == old(tagToExistingUnit)[tag := unit]
    {
      assert forall p :: 0 <= p < |unitPool| ==> |unitPool[p]| == entrySize;
      hide PagesValid, SlotsValid, Sound, IndexValid, SlotOf, ExistingValid;
      SlotIsRowMajor(|order|, entrySize);
      ApplyKeepsSound(Abs(), Create(tag));
      TagIsNew(unitPool, entrySize, order, tagToUnit, tag);
      NewSlotIsFree(unitPool, entrySize, order, tagToUnit);
      TagEntered(unitPool, entrySize, order, tagToUnit, tag);
      var pool := unitPool[availableIndex.0];
      unit := pool[availableIndex.1];
      ExistingGrows(tagToUnit, tagToExistingUnit, tag, unit);
      ghost var existing := tagToExistingUnit;
      tagToUnit := tagToUnit[tag := unit];
      tagToExistingUnit := tagToExistingUnit[tag := unit];
      order := order + [tag];
      assert tagToExistingUnit.Keys == existing.Keys + {tag};
      IndexMoves(unitPool, entrySize, availableIndex, |order| - 1);
      IncrementIndex();
    }

    /** What holders of a valid pool go by. */
    lemma PoolFacts()
      requires Valid()
      ensures tagToUnit.Values <= Units() && tagToExistingUnit.Keys <= tagToUnit.Keys
      ensures forall t :: t in tagToExistingUnit ==> tagToExistingUnit[t] == tagToUnit[t]
      ensures forall t :: t in tagToUnit <==> t in order
    {
      UnitsInPages();
    }

    /** Distinct tags own distinct units. */
    lemma TagsOwnTheirUnits(t: Tag, u: Tag)
      requires Valid() && t in tagToUnit && u in tagToUnit && t != u
      ensures tagToUnit[t] != tagToUnit[u]
    {
      var j :| 0 <= j < |order| && order[j] == t;
      var k :| 0 <= k < |order| && order[k] == u;
      SlotsDiffer(j, k, entrySize);
    }

    /** The dead unit stays in its slot, marked; only the index of existing units forgets it. */
    method MarkDead(tag: Tag)
      requires Valid()
      modifies this`tagToExistingUnit, if tag in tagToUnit then {tagToUnit[tag]} else {}
      ensures Valid() && Abs() == Apply(old(Abs()), Dead(tag))
      ensures tagToExistingUnit == old(tagToExistingUnit) - {tag}
      ensures tag in tagToUnit ==> tagToUnit[tag].data == old(tagToUnit[tag].data).(isAlive := false)
    {
      var unit := GetUnit(tag);
      if unit == null {
        return;
      }
      unit.data := unit.data.(isAlive := false);
      ghost var before := tagToExistingUnit;
      tagToExistingUnit := tagToExistingUnit - {tag};
      assert tagToExistingUnit.Keys == before.Keys - {tag};
    }

    method ClearExisting()
      requires Valid()
      modifies this`tagToExistingUnit
      ensures Valid() && Abs() == Apply(old(Abs()), Clear) && tagToExistingUnit == map[]
    {
      tagToExistingUnit := map[];
    }
  }
}
