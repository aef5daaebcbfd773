/** The two directions of the ability remapping: GetAbilityData of src/sc2api/sc2_client.cc
    builds them, GetGeneralizedAbilityID of src/sc2api/sc2_data.cc follows one. */
module AbilityRemap {
  import opened Wrappers

  /** A record as the game sends it. */
  datatype Record = Record(id: Option<nat>, remapsTo: Option<nat>)

  datatype AbilityData = AbilityData(abilityId: nat, remapsToAbilityId: nat, remapsFromAbilityId: seq<nat>)

  // ---- The tables as a value ----

  function IdOf(records: seq<Record>, j: nat): nat
    requires j < |records|
  {
    if records[j].id.Some? then records[j].id.value else j
  }

  function Asked(records: seq<Record>, j: nat): nat
    requires j < |records|
  {
    if records[j].remapsTo.Some? then records[j].remapsTo.value else 0
  }

  function Target(records: seq<Record>, j: nat): nat
    requires j < |records|
  {
    if Asked(records, j) < |records| then Asked(records, j) else 0
  }

  /** The first n places whose ability remaps to i. */
  function Places(records: seq<Record>, i: nat, n: nat): seq<nat>
    requires n <= |records|
  {
    if n == 0 then [] else Places(records, i, n - 1) + if i != 0 && Target(records, n - 1) == i then [n - 1] else []
  }

  /** The ids that stand at those places. */
  function Sources(records: seq<Record>, i: nat, n: nat): seq<nat>
    requires n <= |records|
  {
    if n == 0 then [] else Sources(records, i, n - 1) + if i != 0 && Target(records, n - 1) == i then [IdOf(records, n - 1)] else []
  }

  /** How many of the first n records remap to an ability that is not there. */
  function Invalid(records: seq<Record>, n: nat): nat
    requires n <= |records|
  {
    if n == 0 then 0 else Invalid(records, n - 1) + if Asked(records, n - 1) >= |records| then 1 else 0
  }

  function Entry(records: seq<Record>, i: nat): AbilityData
    requires i < |records|
  {
    AbilityData(IdOf(records, i), Target(records, i), Sources(records, i, |records|))
  }

  function Tables(records: seq<Record>): seq<AbilityData> {
    seq(|records|, i requires 0 <= i < |records| => Entry(records, i))
  }

  // ---- The tables are inverse ----

  predicate Lists(a: seq<AbilityData>, i: nat, j: nat) { i < |a| && j in a[i].remapsFromAbilityId }

  predicate RemapsTo(a: seq<AbilityData>, j: nat, i: nat) { i < |a| && j < |a| && i != 0 && a[j].remapsToAbilityId == i }

  ghost predicate Inverse(a: seq<AbilityData>) { forall i: nat, j: nat :: Lists(a, i, j) <==> RemapsTo(a, j, i) }

  ghost predicate Ascending(s: seq<nat>) { forall k, l :: 0 <= k < l < |s| ==> s[k] < s[l] }

  ghost predicate AllAscending(a: seq<AbilityData>) { forall i :: 0 <= i < |a| ==> Ascending(a[i].remapsFromAbilityId) }

  lemma {:induction false} PlacesHold(records: seq<Record>, i: nat, n: nat)
    requires n <= |records|
    ensures Ascending(Places(records, i, n))
    ensures forall j :: j in Places(records, i, n) <==> 0 <= j < n && i != 0 && Target(records, j) == i
  {
    hide Target;
    if n > 0 {
      PlacesHold(records, i, n - 1);
      var before := Places(records, i, n - 1);
      assert forall k :: 0 <= k < |before| ==> before[k] in before;
    }
  }

  lemma {:induction false} SourcesAreIds(records: seq<Record>, i: nat, n: nat)
    requires n <= |records|
    ensures |Sources(records, i, n)| == |Places(records, i, n)|
    ensures forall k :: 0 <= k < |Places(records, i, n)| ==>
      Places(records, i, n)[k] < n && Sources(records, i, n)[k] == IdOf(records, Places(records, i, n)[k])
  {
    if n > 0 { SourcesAreIds(records, i, n - 1); }
  }

  ghost predicate SameElements(s: seq<nat>, t: seq<nat>) { forall x: nat :: x in s <==> x in t }

  lemma LastIsGreatest(s: seq<nat>, t: seq<nat>)
    requires Ascending(s) && Ascending(t) && SameElements(s, t) && s != []
    ensures t != [] && s[|s| - 1] == t[|t| - 1]
  {
    assert s[|s| - 1] in t;
    assert t[|t| - 1] in s;
  }

  lemma FrontsAgree(s: seq<nat>, t: seq<nat>, x: nat)
    requires Ascending(s) && Ascending(t) && SameElements(s, t) && s != [] && t != [] && s[|s| - 1] == t[|t| - 1]
    ensures x in s[..|s| - 1] ==> x in t[..|t| - 1]
  {
    if x in s[..|s| - 1] {
      assert x in s && x < s[|s| - 1];
      var k :| 0 <= k < |t| && t[k] == x;
      assert t[..|t| - 1][k] == x;
    }
  }

  /** An ascending list is determined by its elements. */
  lemma {:induction false} AscendingIsUnique(s: seq<nat>, t: seq<nat>)
    requires Ascending(s) && Ascending(t) && SameElements(s, t)
    ensures s == t
    decreases |s|
  {
    assert t != [] ==> t[0] in t && t[0] in s;
    if s != [] {
      LastIsGreatest(s, t);
      var front, rest := s[..|s| - 1], t[..|t| - 1];
      assert SameElements(front, rest) by {
        hide Ascending, SameElements;
        forall x ensures x in front <==> x in rest {
          FrontsAgree(s, t, x);
          FrontsAgree(t, s, x);
        }
        SameIfAll(front, rest);
      }
      hide SameElements;
      AscendingIsUnique(front, rest);
      assert s == front + [s[|s| - 1]] && t == rest + [t[|t| - 1]];
    }
  }

  lemma SameIfAll(s: seq<nat>, t: seq<nat>)
    requires forall x: nat :: x in s <==> x in t
    ensures SameElements(s, t) && SameElements(t, s)
  {
  }

  lemma OwnIdsAreInverse(records: seq<Record>, i: nat)
    requires i < |records| && forall j :: 0 <= j < |records| && Target(records, j) != 0 ==> IdOf(records, j) == j
    ensures Sources(records, i, |records|) == Places(records, i, |records|)
  {
    SourcesAreIds(records, i, |records|);
    PlacesHold(records, i, |records|);
    forall k | 0 <= k < |Places(records, i, |records|)|
      ensures Sources(records, i, |records|)[k] == Places(records, i, |records|)[k]
    {
      assert Places(records, i, |records|)[k] in Places(records, i, |records|);
    }
  }

  /** For any response: each table is the inverse of the other, with every list strictly
      ascending, if and only if each record that remaps carries the id of its own place. */
  lemma InverseExactly(records: seq<Record>)
    ensures Inverse(Tables(records)) && AllAscending(Tables(records)) <==>
      forall j :: 0 <= j < |records| && Target(records, j) != 0 ==> IdOf(records, j) == j
  {
    hide IdOf, Target;
    var a, n := Tables(records), |records|;
    if forall j :: 0 <= j < n && Target(records, j) != 0 ==> IdOf(records, j) == j {
      forall i | 0 <= i < n
        ensures Ascending(a[i].remapsFromAbilityId) && forall j: nat :: Lists(a, i, j) <==> RemapsTo(a, j, i)
      {
        OwnIdsAreInverse(records, i);
        PlacesHold(records, i, n);
      }
    }
    if Inverse(a) && AllAscending(a) {
      forall j | 0 <= j < n && Target(records, j) != 0 ensures IdOf(records, j) == j {
        OwnPlace(records, j);
      }
    }
  }

  lemma OwnPlace(records: seq<Record>, j: nat)
    requires j < |records| && 0 != Target(records, j)
    requires Inverse(Tables(records)) && AllAscending(Tables(records))
    ensures IdOf(records, j) == j
  {
    hide IdOf, Target;
    var i, n := Target(records, j), |records|;
    var places, sources := Places(records, i, n), Sources(records, i, n);
    PlacesHold(records, i, n);
    SourcesAreIds(records, i, n);
    var a := Tables(records);
    TargetsInRange(records, j);
    assert a[i].remapsFromAbilityId == sources;
    forall x: nat ensures x in sources <==> x in places {
      assert Lists(a, i, x) <==> RemapsTo(a, x, i);
    }
    SameIfAll(sources, places);
    AscendingIsUnique(sources, places);
    var k :| 0 <= k < |places| && places[k] == j;
  }

  /** Every remapping that is left points to an ability that is there, and is the one that the
      game sent; the ability has the id that the game sent, or else that of its place. */
  lemma TargetsInRange(records: seq<Record>, j: nat)
    requires j < |records|
    ensures var data, sent := Tables(records)[j], records[j];
      && data.remapsToAbilityId < |Tables(records)| == |records|
      && (sent.remapsTo.Some? && sent.remapsTo.value < |records| ==> data.remapsToAbilityId == sent.remapsTo.value)
      && (sent.remapsTo.None? || sent.remapsTo.value >= |records| ==> data.remapsToAbilityId == 0)
      && data.abilityId == (match sent.id case Some(id) => id case None => j)
  {
  }

  /** For any response: an id stands in the list of i exactly if a record of that id asked for i. */
  lemma ListedExactly(records: seq<Record>, i: nat, id: nat)
    requires i < |records|
    ensures id in Tables(records)[i].remapsFromAbilityId <==>
      exists j: nat :: j < |records| && i != 0 && records[j].remapsTo == Some(i) && Tables(records)[j].abilityId == id
  {
    hide IdOf;
    var n := |records|;
    PlacesHold(records, i, n);
    SourcesAreIds(records, i, n);
    var places, sources := Places(records, i, n), Sources(records, i, n);
    hide Places, Sources;
    assert Tables(records)[i].remapsFromAbilityId == sources;
    if id in sources {
      var k :| 0 <= k < |sources| && sources[k] == id;
      assert places[k] in places;
      assert records[places[k]].remapsTo == Some(i) && Tables(records)[places[k]].abilityId == id;
    }
    if j: nat :| j < n && i != 0 && records[j].remapsTo == Some(i) && Tables(records)[j].abilityId == id {
      assert j in places;
    }
  }

  /** As many errors are reported as records ask for an ability that is not there. */
  lemma {:induction false} InvalidCounts(records: seq<Record>, n: nat)
    requires n <= |records|
    ensures Invalid(records, n) == |(set j: nat | j < n && records[j].remapsTo.Some? && records[j].remapsTo.value >= |records|)|
  {
    if n > 0 {
      InvalidCounts(records, n - 1);
      var before := set j: nat | j < n - 1 && records[j].remapsTo.Some? && records[j].remapsTo.value >= |records|;
      var all := set j: nat | j < n && records[j].remapsTo.Some? && records[j].remapsTo.value >= |records|;
      assert all == if Asked(records, n - 1) >= |records| then before + {n - 1} else before;
    }
  }

  // ---- GetGeneralizedAbilityID ----

  function Generalized(a: seq<AbilityData>, id: nat): nat {
    if id == 0 then id
    else if id >= |a| then id
    else if a[id].remapsToAbilityId != 0 then a[id].remapsToAbilityId
    else id
  }

  ghost predicate InRange(a: seq<AbilityData>) { forall j :: 0 <= j < |a| ==> 0 <= a[j].remapsToAbilityId < |a| }

  predicate Stops(a: seq<AbilityData>, id: nat) { id >= |a| || a[id].remapsToAbilityId == 0 || a[id].remapsToAbilityId == id }

  /** Generalizing twice is generalizing once, for every id, if and only if no ability remaps to
      one that remaps on. */
  lemma GeneralizedTwiceExactly(a: seq<AbilityData>)
    requires InRange(a)
    ensures (forall id: nat :: Generalized(a, Generalized(a, id)) == Generalized(a, id)) <==>
      forall j :: 1 <= j < |a| && a[j].remapsToAbilityId != 0 ==> Stops(a, a[j].remapsToAbilityId)
  {
    if forall id: nat :: Generalized(a, Generalized(a, id)) == Generalized(a, id) {
      forall j | 1 <= j < |a| && a[j].remapsToAbilityId != 0 ensures Stops(a, a[j].remapsToAbilityId) {
        assert Generalized(a, Generalized(a, j)) == Generalized(a, j);
      }
    }
  }

  /** Generalizing takes an ability to the one in whose list it is, and leaves an ability alone
      that is in no list. */
  lemma GeneralizedByLists(a: seq<AbilityData>, id: nat, i: nat)
    requires InRange(a) && Inverse(a) && 0 < id < |a| && i < |a|
    ensures Lists(a, i, id) ==> Generalized(a, id) == i
    ensures (forall k: nat :: !Lists(a, k, id)) ==> Generalized(a, id) == id
  {
    assert Lists(a, i, id) <==> RemapsTo(a, id, i);
    var t := a[id].remapsToAbilityId;
    assert Lists(a, t, id) <==> RemapsTo(a, id, t);
  }

  // ---- GetAbilityData as it runs ----

  class Observation {
    var abilities: seq<AbilityData>
    var abilitiesCached: bool
    var invalidRemaps: nat

    constructor ()
      ensures abilities == [] && !abilitiesCached && invalidRemaps == 0
    {
      abilities, abilitiesCached, invalidRemaps := [], false, 0;
    }

    /** The first pass: each record is read into its place. */
    method ReadRecords(records: seq<Record>)
      modifies this`abilities
      ensures abilities == seq(|records|, i requires 0 <= i < |records| => AbilityData(IdOf(records, i), Asked(records, i), []))
    {
      abilities := seq(|records|, i => AbilityData(0, 0, []));
      for i := 0 to |records|
        invariant |abilities| == |records|
        invariant forall k :: 0 <= k < i ==> abilities[k] == AbilityData(IdOf(records, k), Asked(records, k), [])
      {
        var id := i;
        if records[i].id.Some? {
          id := records[i].id.value;
        }
        abilities := abilities[i := AbilityData(id, Asked(records, i), [])];
      }
    }

    /** The state of the second pass before place j. */
    static ghost predicate LinkedTo(abilities: seq<AbilityData>, records: seq<Record>, j: nat) {
      && |abilities| == |records| && j <= |records|
      && forall k :: 0 <= k < |records| ==> abilities[k] == EntryAt(records, k, j)
    }

    static ghost function EntryAt(records: seq<Record>, k: nat, j: nat): AbilityData
      requires k < |records| && j <= |records|
    {
      AbilityData(IdOf(records, k), if k < j then Target(records, k) else Asked(records, k), Sources(records, k, j))
    }

    /** The second pass: remappings that lead nowhere are dropped, the others entered on the
        other side. */
    method LinkRemaps(ghost records: seq<Record>)
      requires LinkedTo(abilities, records, 0)
      modifies this`abilities, this`invalidRemaps
      ensures abilities == Tables(records)
      ensures invalidRemaps == old(invalidRemaps) + Invalid(records, |records|)
    {
      hide IdOf, Asked;
      for j := 0 to |abilities|
        invariant |abilities| == |records| && LinkedTo(abilities, records, j)
        invariant invalidRemaps == old(invalidRemaps) + Invalid(records, j)
      {
        var data := abilities[j];
        if data.remapsToAbilityId == 0 {
          continue;
        }
        if data.remapsToAbilityId >= |abilities| {
          invalidRemaps := invalidRemaps + 1;
          abilities := abilities[j := data.(remapsToAbilityId := 0)];
          continue;
        }
        var to := abilities[data.remapsToAbilityId];
        abilities := abilities[data.remapsToAbilityId := to.(remapsFromAbilityId := to.remapsFromAbilityId + [data.abilityId])];
      }
    }

    /** None stands for a request that could not be sent or an answer with errors. */
    method GetAbilityData(forceRefresh: bool, reply: Option<seq<Record>>)
      modifies this
      ensures var asks := forceRefresh || old(abilities) == [] || !old(abilitiesCached);
        var arrives := reply.Some? && reply.value != [];
        && abilities == (if !asks then old(abilities) else if arrives then Tables(reply.value) else [])
        && invalidRemaps == old(invalidRemaps) + (if asks && arrives then Invalid(reply.value, |reply.value|) else 0)
        && (abilitiesCached <==> !asks || arrives)
    {
      if forceRefresh || |abilities| < 1 {
        abilitiesCached := false;
      }
      if abilitiesCached {
        return;
      }
      abilities := [];
      if reply.None? || reply.value == [] {
        return;
      }
      ReadRecords(reply.value);
      LinkRemaps(reply.value);
      abilitiesCached := true;
    }
  }
}
