/** src/sc2lib/sc2_search.cc: resources are clustered around running centres of mass, and for
    each cluster the nearest of its valid building places is chosen. Numbers are reals. */
module Search {
  import opened Wrappers

  datatype Point2D = Point2D(x: real, y: real)
  datatype Point3D = Point3D(x: real, y: real, z: real)

  datatype Resource = Resource(tag: nat, pos: Point3D)

  datatype Cluster = Cluster(center: Point3D, members: seq<Resource>)

  /** The largest float, the distance to begin with. */
  const FAR: real := 340282346638528859811704183484516925440.0

  function Plus(a: Point3D, b: Point3D): Point3D { Point3D(a.x + b.x, a.y + b.y, a.z + b.z) }
  function Minus(a: Point3D, b: Point3D): Point3D { Point3D(a.x - b.x, a.y - b.y, a.z - b.z) }
  function Times(a: Point3D, k: real): Point3D { Point3D(a.x * k, a.y * k, a.z * k) }
  function Over(a: Point3D, k: real): Point3D
    requires k != 0.0
  {
    Point3D(a.x / k, a.y / k, a.z / k)
  }

  function Dot(a: Point3D, b: Point3D): real { a.x * b.x + a.y * b.y + a.z * b.z }

  function DistanceSquared3D(a: Point3D, b: Point3D): real { Dot(Minus(a, b), Minus(a, b)) }

  function DistanceSquared2D(a: Point2D, b: Point2D): real { (a.x - b.x) * (a.x - b.x) + (a.y - b.y) * (a.y - b.y) }

  // ---- Cluster as a value ----

  /** The index of the cluster that pos is nearest to, and how near. */
  ghost predicate IsNearest(clusters: seq<Cluster>, pos: Point3D, target: Option<nat>, distance: real) {
    && (target.None? ==> distance == FAR)
    && (target.Some? ==>
        && target.value < |clusters| && distance == DistanceSquared3D(pos, clusters[target.value].center) < FAR
        && (forall k :: 0 <= k < target.value ==> DistanceSquared3D(pos, clusters[k].center) > distance))
    && (forall k :: 0 <= k < |clusters| ==> DistanceSquared3D(pos, clusters[k].center) >= distance)
  }

  function Nearest(clusters: seq<Cluster>, pos: Point3D): (r: (Option<nat>, real))
    ensures IsNearest(clusters, pos, r.0, r.1)
  {
    if clusters == [] then (None, FAR)
    else
      var last := |clusters| - 1;
      var (target, distance) := Nearest(clusters[..last], pos);
      var d := DistanceSquared3D(pos, clusters[last].center);
      if d < distance then (Some(last), d) else (target, distance)
  }

  /** The nearest cluster, the first of several, is the only answer. */
  lemma NearestIsUnique(clusters: seq<Cluster>, pos: Point3D, target: Option<nat>, distance: real)
    requires IsNearest(clusters, pos, target, distance)
    ensures (target, distance) == Nearest(clusters, pos)
  {
    hide Nearest, DistanceSquared3D;
    var (t, d) := Nearest(clusters, pos);
    assert IsNearest(clusters, pos, t, d);
  }

  function Joined(c: Cluster, u: Resource): Cluster {
    var size := |c.members| as real + 1.0;
    Cluster(Over(Plus(Times(c.center, size - 1.0), u.pos), size), c.members + [u])
  }

  /** One unit: it founds a cluster when it is too far from all, or joins the nearest. */
  function Placed(clusters: seq<Cluster>, u: Resource, apart: real): seq<Cluster> {
    var (target, distance) := Nearest(clusters, u.pos);
    if distance > apart * apart || target.None? then clusters + [Cluster(u.pos, [u])]
    else clusters[target.value := Joined(clusters[target.value], u)]
  }

  function Clustered(units: seq<Resource>, apart: real): seq<Cluster> {
    if units == [] then [] else Placed(Clustered(units[..|units| - 1], apart), units[|units| - 1], apart)
  }

  /** The distance apart is too great for the test against the largest float to tell. */
  predicate TooFarApart(units: seq<Resource>, apart: real) { units != [] && apart * apart >= FAR }

  function Sum(members: seq<Resource>): Point3D {
    if members == [] then Point3D(0.0, 0.0, 0.0) else Plus(Sum(members[..|members| - 1]), members[|members| - 1].pos)
  }

  /** The centre is the mean of the members, of which there are some. */
  predicate CenterIsMean(c: Cluster) {
    c.members != [] && c.center == Over(Sum(c.members), |c.members| as real)
  }

  function Members(clusters: seq<Cluster>): multiset<Resource> {
    if clusters == [] then multiset{} else Members(clusters[..|clusters| - 1]) + multiset(clusters[|clusters| - 1].members)
  }

  lemma JoinedIsMean(c: Cluster, u: Resource)
    requires CenterIsMean(c)
    ensures CenterIsMean(Joined(c, u))
  {
    var n := |c.members| as real;
    assert (c.members + [u])[..|c.members|] == c.members;
    assert Sum(c.members + [u]) == Plus(Sum(c.members), u.pos);
    Divides(Sum(c.members).x, n);
    Divides(Sum(c.members).y, n);
    Divides(Sum(c.members).z, n);
  }

  lemma Divides(x: real, n: real)
    requires n > 0.0
    ensures x / n * n == x
  {
  }

  /** Joining moves the centre by the distance to the unit divided by the new size. */
  lemma JoiningMovesCenter(c: Cluster, u: Resource)
    ensures var n := |c.members| as real + 1.0;
      DistanceSquared3D(Joined(c, u).center, c.center) * (n * n) == DistanceSquared3D(u.pos, c.center)
  {
    var n := |c.members| as real + 1.0;
    Shift(c.center.x, u.pos.x, n);
    Shift(c.center.y, u.pos.y, n);
    Shift(c.center.z, u.pos.z, n);
    var m := Minus(Joined(c, u).center, c.center);
    Distribute(m.x * m.x, m.y * m.y, m.z * m.z, n * n);
  }

  lemma Distribute(x: real, y: real, z: real, k: real)
    ensures (x + y + z) * k == x * k + y * k + z * k
  {
  }

  lemma Shift(c: real, p: real, n: real)
    requires n > 0.0
    ensures ((c * (n - 1.0) + p) / n - c) * ((c * (n - 1.0) + p) / n - c) * (n * n) == (p - c) * (p - c)
  {
    var m := (c * (n - 1.0) + p) / n - c;
    assert m * n == p - c;
    assert m * m * (n * n) == (m * n) * (m * n);
  }

  lemma MembersOfLast(clusters: seq<Cluster>)
    requires clusters != []
    ensures Members(clusters) == Members(clusters[..|clusters| - 1]) + multiset(clusters[|clusters| - 1].members)
  {
  }

  lemma {:induction false} MembersOfUpdate(clusters: seq<Cluster>, k: nat, c: Cluster, u: Resource)
    requires k < |clusters| && c.members == clusters[k].members + [u]
    ensures Members(clusters[k := c]) == Members(clusters) + multiset{u}
  {
    hide Members;
    var last, updated := |clusters| - 1, clusters[k := c];
    MembersOfLast(clusters);
    MembersOfLast(updated);
    if k == last {
      assert updated[..last] == clusters[..last];
      assert multiset(c.members) == multiset(clusters[k].members) + multiset{u};
    } else {
      assert updated[..last] == clusters[..last][k := c];
      MembersOfUpdate(clusters[..last], k, c, u);
    }
  }

  lemma PlacedKeeps(clusters: seq<Cluster>, u: Resource, apart: real)
    requires forall k :: 0 <= k < |clusters| ==> CenterIsMean(clusters[k])
    ensures forall k :: 0 <= k < |Placed(clusters, u, apart)| ==> CenterIsMean(Placed(clusters, u, apart)[k])
    ensures Members(Placed(clusters, u, apart)) == Members(clusters) + multiset{u}
  {
    hide Nearest, Joined, CenterIsMean;
    var placed := Placed(clusters, u, apart);
    var (target, distance) := Nearest(clusters, u.pos);
    if distance > apart * apart || target.None? {
      FounderIsMean(u);
      assert placed[..|clusters|] == clusters;
    } else {
      var k := target.value;
      JoinedIsMean(clusters[k], u);
      JoinedMembers(clusters[k], u);
      MembersOfUpdate(clusters, k, Joined(clusters[k], u), u);
    }
  }

  lemma JoinedMembers(c: Cluster, u: Resource)
    ensures Joined(c, u).members == c.members + [u]
  {
  }

  lemma FounderIsMean(u: Resource)
    ensures CenterIsMean(Cluster(u.pos, [u]))
  {
    assert Sum([u]) == Plus(Sum([u][..0]), u.pos);
  }

  /** After any number of units no cluster is empty, every centre is the mean of its members,
      and the members together are the units seen, each once. */
  lemma {:induction false} ClustersPartition(units: seq<Resource>, apart: real)
    ensures forall k :: 0 <= k < |Clustered(units, apart)| ==> CenterIsMean(Clustered(units, apart)[k])
    ensures Members(Clustered(units, apart)) == multiset(units)
  {
    if units != [] {
      hide CenterIsMean, Placed;
      var front, u := units[..|units| - 1], units[|units| - 1];
      assert units == front + [u];
      ClustersPartition(front, apart);
      PlacedKeeps(Clustered(front, apart), u, apart);
    }
  }

  /** The next unit founds a cluster exactly when it is farther than apart from every centre
      there is. Otherwise one cluster takes it in, the first of those with the nearest centre,
      and that centre moves by at most apart divided by the new size. */
  lemma EachUnitJoinsTheNearest(units: seq<Resource>, apart: real, i: nat)
    requires i < |units| && !TooFarApart(units, apart)
    ensures var before, after, u := Clustered(units[..i], apart), Clustered(units[..i + 1], apart), units[i];
      (forall k :: 0 <= k < |before| ==> DistanceSquared3D(u.pos, before[k].center) > apart * apart) <==>
      after == before + [Cluster(u.pos, [u])]
    ensures var before, after, u := Clustered(units[..i], apart), Clustered(units[..i + 1], apart), units[i];
      (exists k :: 0 <= k < |before| && DistanceSquared3D(u.pos, before[k].center) <= apart * apart) ==>
        exists k :: 0 <= k < |before| && JoinsNearest(before, after, u, k, apart)
  {
    hide DistanceSquared3D, Joined, FAR;
    var before, u := Clustered(units[..i], apart), units[i];
    assert units[..i + 1][..i] == units[..i];
    var (target, distance) := Nearest(before, u.pos);
    assert IsNearest(before, u.pos, target, distance);
    if distance <= apart * apart {
      var k := target.value;
      JoinedMembers(before[k], u);
      CenterMovesLittle(before[k], u, apart);
      assert JoinsNearest(before, Clustered(units[..i + 1], apart), u, k, apart);
    }
  }

  lemma CenterMovesLittle(c: Cluster, u: Resource, apart: real)
    requires DistanceSquared3D(u.pos, c.center) <= apart * apart
    ensures var size := (|c.members| + 1) as real;
      DistanceSquared3D(Joined(c, u).center, c.center) <= (apart / size) * (apart / size)
  {
    hide *;
    var size := (|c.members| + 1) as real;
    assert size == |c.members| as real + 1.0;
    JoiningMovesCenter(c, u);
    Grows(size, size);
    Quotient(DistanceSquared3D(Joined(c, u).center, c.center), apart, size, size * size);
  }

  lemma Quotient(d: real, apart: real, n: real, square: real)
    requires n > 0.0 && square == n * n && square > 0.0 && d * square <= apart * apart
    ensures d <= (apart / n) * (apart / n)
  {
    var q := apart / n;
    assert (q * q) * square == (q * n) * (q * n) == apart * apart;
    Cancel(d, q * q, square);
  }

  lemma Cancel(x: real, y: real, k: real)
    requires k > 0.0 && x * k <= y * k
    ensures x <= y
  {
    if x > y {
      Grows(x - y, k);
      assert false;
    }
  }

  lemma Grows(x: real, y: real)
    requires x > 0.0 && y > 0.0
    ensures x * y > 0.0
  {
  }

  ghost predicate JoinsNearest(before: seq<Cluster>, after: seq<Cluster>, u: Resource, k: nat, apart: real)
    requires k < |before|
  {
    && |after| == |before| && (forall j :: 0 <= j < |before| && j != k ==> after[j] == before[j])
    && after[k].members == before[k].members + [u]
    && (forall j :: 0 <= j < |before| ==> DistanceSquared3D(u.pos, before[k].center) <= DistanceSquared3D(u.pos, before[j].center))
    && (forall j :: 0 <= j < k ==> DistanceSquared3D(u.pos, before[k].center) < DistanceSquared3D(u.pos, before[j].center))
    && DistanceSquared3D(u.pos, before[k].center) <= apart * apart
    && (var size := |after[k].members| as real;
        size > 0.0 && DistanceSquared3D(after[k].center, before[k].center) <= (apart / size) * (apart / size))
  }

  // ---- Cluster as it runs ----

  /** None stands for following a null pointer: no cluster is the target, and the distance to
      begin with does not exceed the distance apart. That befalls the first unit or none. */
  method ClusterUnits(units: seq<Resource>, apart: real) returns (result: Option<seq<Cluster>>)
    ensures result == if TooFarApart(units, apart) then None else Some(Clustered(units, apart))
  {
    hide DistanceSquared3D, FAR, Nearest, Joined;
    var squaredDistanceApart := apart * apart;
    var clusters := [];
    for i := 0 to |units|
      invariant clusters == Clustered(units[..i], apart)
      invariant i > 0 ==> squaredDistanceApart < FAR
    {
      if i == 0 { assert units[..i] == []; }
      assert units[..i + 1][..i] == units[..i];
      var u := units[i];
      var distance, target := FindNearest(clusters, u.pos);
      if distance > squaredDistanceApart {
        clusters := clusters + [Cluster(u.pos, [u])];
        continue;
      }
      if target.None? {
        return None;
      }
      var cluster := clusters[target.value];
      var members := cluster.members + [u];
      var size := |members| as real;
      clusters := clusters[target.value := Cluster(Over(Plus(Times(cluster.center, size - 1.0), u.pos), size), members)];
      JoinedByHand(cluster, u);
    }
    assert units[..|units|] == units;
    return Some(clusters);
  }

  lemma JoinedByHand(c: Cluster, u: Resource)
    ensures var size := |c.members + [u]| as real;
      size != 0.0 && Joined(c, u) == Cluster(Over(Plus(Times(c.center, size - 1.0), u.pos), size), c.members + [u])
  {
  }

  method FindNearest(clusters: seq<Cluster>, pos: Point3D) returns (distance: real, target: Option<nat>)
    ensures (target, distance) == Nearest(clusters, pos)
  {
    hide DistanceSquared3D;
    distance, target := FAR, None;
    for k := 0 to |clusters|
      invariant (target, distance) == Nearest(clusters[..k], pos)
    {
      assert clusters[..k + 1][..k] == clusters[..k];
      var d := DistanceSquared3D(pos, clusters[k].center);
      if d < distance {
        distance, target := d, Some(k);
      }
    }
    assert clusters[..|clusters|] == clusters;
  }

  // ---- Places to ask for ----

  type Cell = (int, int)

  /** The cell that is taken to come before the first one. */
  const NOWHERE: Cell := (FAR.Floor, FAR.Floor)

  function CellOf(p: Point2D): Cell { (p.x.Floor, p.y.Floor) }

  /** The points of a circle that lie in another cell than the point before. */
  function Kept(circle: seq<Point2D>): seq<Point2D> {
    if circle == [] then []
    else
      var last := |circle| - 1;
      var before := if last == 0 then NOWHERE else CellOf(circle[last - 1]);
      Kept(circle[..last]) + if before != CellOf(circle[last]) then [circle[last]] else []
  }

  /** The cell of every sampled point is asked for. */
  lemma {:induction false} KeptCoversCells(circle: seq<Point2D>, i: nat) returns (k: nat)
    requires i < |circle| && CellOf(circle[0]) != NOWHERE
    ensures k < |Kept(circle)| && CellOf(Kept(circle)[k]) == CellOf(circle[i])
    ensures i == |circle| - 1 ==> k == |Kept(circle)| - 1
    decreases |circle|
  {
    hide CellOf, NOWHERE;
    var last := |circle| - 1;
    if i < last {
      k := KeptCoversCells(circle[..last], i);
    } else if last > 0 && CellOf(circle[last - 1]) == CellOf(circle[last]) {
      k := KeptCoversCells(circle[..last], last - 1);
    } else {
      k := |Kept(circle)| - 1;
    }
  }

  /** Only sampled points are asked for, and no cell twice in a row. */
  lemma {:induction false} KeptDiffer(circle: seq<Point2D>)
    requires circle != [] ==> CellOf(circle[0]) != NOWHERE
    ensures forall k :: 0 <= k < |Kept(circle)| ==> Kept(circle)[k] in circle
    ensures forall k :: 0 < k < |Kept(circle)| ==> CellOf(Kept(circle)[k - 1]) != CellOf(Kept(circle)[k])
  {
    hide CellOf, NOWHERE;
    if circle != [] {
      var last := |circle| - 1;
      KeptDiffer(circle[..last]);
      if last > 0 {
        var _ := KeptCoversCells(circle[..last], last - 1);
      }
    }
  }

  /** CalculateQueries, for the points of a circle in turn. */
  method CalculateQueries(circle: seq<Point2D>, queries: seq<Point2D>) returns (extended: seq<Point2D>, validQueries: nat)
    ensures extended == queries + Kept(circle) && validQueries == |Kept(circle)|
  {
    hide CellOf, NOWHERE;
    extended, validQueries := queries, 0;
    var previousGrid := NOWHERE;
    for i := 0 to |circle|
      invariant extended == queries + Kept(circle[..i]) && validQueries == |Kept(circle[..i])|
      invariant previousGrid == if i == 0 then NOWHERE else CellOf(circle[i - 1])
    {
      assert circle[..i + 1][..i] == circle[..i];
      var point := circle[i];
      var currentGrid := CellOf(point);
      if previousGrid != currentGrid {
        extended := extended + [point];
        validQueries := validQueries + 1;
      }
      previousGrid := currentGrid;
    }
    assert circle[..|circle|] == circle;
  }

  /** What a batch of placement queries comes back with: nothing, if it cannot be sent or is
      answered with an error. */
  datatype PlacementReply = NoReply | Placements(success: seq<bool>)

  function PlacedAt(count: nat, reply: PlacementReply): (results: seq<bool>)
    ensures |results| == count
  {
    if reply.Placements? && |reply.success| == count then reply.success else seq(count, _ => false)
  }

  /** The batched Placement: one result for each query, whatever comes back. */
  method Placement(queries: seq<Point2D>, reply: PlacementReply) returns (results: seq<bool>)
    ensures |results| == |queries|
    ensures forall i :: 0 <= i < |queries| ==>
      (results[i] <==> reply.Placements? && |reply.success| == |queries| && reply.success[i])
    ensures results == PlacedAt(|queries|, reply)
  {
    if reply.NoReply? {
      return seq(|queries|, _ => false);
    }
    if |reply.success| != |queries| {
      return seq(|queries|, _ => false);
    }
    results := [];
    for i := 0 to |reply.success|
      invariant results == reply.success[..i]
    {
      results := results + [reply.success[i]];
    }
  }

  // ---- Expansion locations ----

  /** The points of the circle with a radius around a centre; trigonometry is not modelled. */
  type Circles = (real, Point3D) -> seq<Point2D>

  function QueriesAround(center: Point3D, radiuses: seq<real>, circles: Circles): seq<Point2D> {
    if radiuses == [] then []
    else QueriesAround(center, radiuses[..|radiuses| - 1], circles) + Kept(circles(radiuses[|radiuses| - 1], center))
  }

  /** How many points the first q circles around a centre have kept. */
  function KeptBefore(center: Point3D, radiuses: seq<real>, circles: Circles, q: nat): nat
    requires q <= |radiuses|
  {
    if q == 0 then 0 else KeptBefore(center, radiuses, circles, q - 1) + |Kept(circles(radiuses[q - 1], center))|
  }

  /** Behind the points of the circles before, asked holds those of the q-th. */
  ghost predicate HoldsCircle(asked: seq<Point2D>, center: Point3D, radiuses: seq<real>, circles: Circles, q: nat)
    requires q < |radiuses|
  {
    var from, kept := KeptBefore(center, radiuses, circles, q), Kept(circles(radiuses[q], center));
    from + |kept| <= |asked| && forall p :: 0 <= p < |kept| ==> asked[from + p] == kept[p]
  }

  /** asked holds, for one radius after the other, the kept points of its circle, and no more. */
  ghost predicate HoldsCircles(asked: seq<Point2D>, center: Point3D, radiuses: seq<real>, circles: Circles) {
    && |asked| == KeptBefore(center, radiuses, circles, |radiuses|)
    && forall q :: 0 <= q < |radiuses| ==> HoldsCircle(asked, center, radiuses, circles, q)
  }

  lemma {:induction false} KeptBeforeFront(center: Point3D, radiuses: seq<real>, circles: Circles, n: nat, q: nat)
    requires q <= n <= |radiuses|
    ensures KeptBefore(center, radiuses[..n], circles, q) == KeptBefore(center, radiuses, circles, q)
    decreases q
  {
    hide Kept;
    if q > 0 { KeptBeforeFront(center, radiuses, circles, n, q - 1); }
  }

  lemma {:induction false} KeptBeforeGrows(center: Point3D, radiuses: seq<real>, circles: Circles, q: nat, n: nat)
    requires q < n <= |radiuses|
    ensures KeptBefore(center, radiuses, circles, q) + |Kept(circles(radiuses[q], center))| <= KeptBefore(center, radiuses, circles, n)
    decreases n
  {
    hide Kept;
    if q < n - 1 { KeptBeforeGrows(center, radiuses, circles, q, n - 1); }
  }

  /** Every radius has its circle asked for, in the order of the radii. */
  lemma {:induction false} AllRadiusesAreAsked(center: Point3D, radiuses: seq<real>, circles: Circles)
    ensures HoldsCircles(QueriesAround(center, radiuses, circles), center, radiuses, circles)
    decreases |radiuses|
  {
    hide Kept, KeptBefore;
    var asked := QueriesAround(center, radiuses, circles);
    if radiuses == [] {
      NoneKeptBefore(center, radiuses, circles);
    } else {
      var last := |radiuses| - 1;
      AllRadiusesAreAsked(center, radiuses[..last], circles);
      KeptBeforeFront(center, radiuses, circles, last, last);
      OneMoreCircle(center, radiuses, circles);
      forall q | 0 <= q < |radiuses| ensures HoldsCircle(asked, center, radiuses, circles, q) {
        if q < last {
          assert HoldsCircle(asked[..|asked| - |Kept(circles(radiuses[last], center))|], center, radiuses[..last], circles, q);
          KeptBeforeFront(center, radiuses, circles, last, q);
          KeptBeforeGrows(center, radiuses, circles, q, last);
          assert radiuses[..last][q] == radiuses[q];
        }
      }
    }
  }

  lemma NoneKeptBefore(center: Point3D, radiuses: seq<real>, circles: Circles)
    ensures KeptBefore(center, radiuses, circles, 0) == 0
  {
  }

  lemma OneMoreCircle(center: Point3D, radiuses: seq<real>, circles: Circles)
    requires radiuses != []
    ensures var last := |radiuses| - 1;
      KeptBefore(center, radiuses, circles, |radiuses|)
      == KeptBefore(center, radiuses, circles, last) + |Kept(circles(radiuses[last], center))|
  {
  }

  /** Each query belongs to a point of some circle. */
  lemma {:induction false} CircleOf(center: Point3D, radiuses: seq<real>, circles: Circles, k: nat, n: nat) returns (q: nat, p: nat)
    requires n <= |radiuses| && k < KeptBefore(center, radiuses, circles, n)
    ensures q < n && p < |Kept(circles(radiuses[q], center))| && k == KeptBefore(center, radiuses, circles, q) + p
    decreases n
  {
    hide Kept;
    if k < KeptBefore(center, radiuses, circles, n - 1) {
      q, p := CircleOf(center, radiuses, circles, k, n - 1);
    } else {
      q, p := n - 1, k - KeptBefore(center, radiuses, circles, n - 1);
    }
  }

  /** The queries of all clusters, one after the other. */
  function AllQueries(clusters: seq<Cluster>, radiuses: seq<real>, circles: Circles): seq<Point2D> {
    if clusters == [] then []
    else
      var last := |clusters| - 1;
      AllQueries(clusters[..last], radiuses, circles) + QueriesAround(clusters[last].center, radiuses, circles)
  }

  /** Where the queries of cluster i begin. */
  function StartOf(clusters: seq<Cluster>, radiuses: seq<real>, circles: Circles, i: nat): nat
    requires i <= |clusters|
  {
    |AllQueries(clusters[..i], radiuses, circles)|
  }

  /** The slice of cluster i holds exactly its own queries. */
  lemma {:induction false} SliceIsOwn(clusters: seq<Cluster>, radiuses: seq<real>, circles: Circles, i: nat)
    requires i < |clusters|
    ensures var start, all := StartOf(clusters, radiuses, circles, i), AllQueries(clusters, radiuses, circles);
      var own := QueriesAround(clusters[i].center, radiuses, circles);
      && start + |own| == StartOf(clusters, radiuses, circles, i + 1) <= |all|
      && all[start..start + |own|] == own
    decreases |clusters|
  {
    hide QueriesAround;
    var last := |clusters| - 1;
    assert clusters[..last][..i] == clusters[..i];
    assert clusters[..i + 1][..i] == clusters[..i];
    if i < last {
      SliceIsOwn(clusters[..last], radiuses, circles, i);
      assert clusters[..last][..i + 1] == clusters[..i + 1];
    } else {
      assert clusters[..i + 1] == clusters;
    }
  }

  /** A place that may be chosen: it is valid, and nearer than the distance to begin with. */
  predicate Eligible(targets: seq<Point2D>, valid: seq<bool>, center: Point2D, j: nat)
    requires |targets| == |valid|
  {
    j < |targets| && valid[j] && DistanceSquared2D(targets[j], center) < FAR * FAR
  }

  /** The place chosen: the first of the nearest eligible ones, or the origin when none is. */
  ghost predicate Chosen(place: Point2D, targets: seq<Point2D>, valid: seq<bool>, center: Point2D)
    requires |targets| == |valid|
  {
    if exists j: nat :: Eligible(targets, valid, center, j) then
      exists j: nat :: Eligible(targets, valid, center, j) && place == targets[j] && IsFirstNearest(targets, valid, center, j)
    else place == Point2D(0.0, 0.0)
  }

  ghost predicate IsFirstNearest(targets: seq<Point2D>, valid: seq<bool>, center: Point2D, j: nat)
    requires |targets| == |valid| && j < |targets|
  {
    forall k: nat :: Eligible(targets, valid, center, k) ==>
      if k < j then DistanceSquared2D(targets[j], center) < DistanceSquared2D(targets[k], center)
      else DistanceSquared2D(targets[j], center) <= DistanceSquared2D(targets[k], center)
  }

  /** Distances are compared by their squares. */
  method NearestValid(queries: seq<Point2D>, results: seq<bool>, center: Point2D, start: nat, size: nat)
    returns (closest: Point2D)
    requires |results| == |queries| && start + size <= |queries|
    ensures Chosen(closest, queries[start..start + size], results[start..start + size], center)
  {
    hide DistanceSquared2D, FAR;
    ghost var targets, valid := queries[start..start + size], results[start..start + size];
    var distance := FAR * FAR;
    closest := Point2D(0.0, 0.0);
    ghost var best: nat := size;
    for j := start to start + size
      invariant best == size ==> distance == FAR * FAR && closest == Point2D(0.0, 0.0)
      invariant best == size ==> forall k: nat :: k < j - start ==> !Eligible(targets, valid, center, k)
      invariant best < size ==> best < j - start && Eligible(targets, valid, center, best)
      invariant best < size ==> closest == targets[best] && distance == DistanceSquared2D(targets[best], center)
      invariant best <= size
      invariant best < size ==> forall k: nat :: k < j - start && Eligible(targets, valid, center, k) ==>
        if k < best then distance < DistanceSquared2D(targets[k], center) else distance <= DistanceSquared2D(targets[k], center)
    {
      if !results[j] {
        continue;
      }
      var p := queries[j];
      assert p == targets[j - start];
      var d := DistanceSquared2D(p, center);
      if d < distance {
        distance := d;
        closest := p;
        best := j - start;
      }
    }
    if best < size {
      assert IsFirstNearest(targets, valid, center, best);
    }
  }

  function Flat(p: Point3D): Point2D { Point2D(p.x, p.y) }

  /** One location for each cluster: over the first resource of the cluster, at the nearest valid
      one of the places asked for around that cluster. */
  ghost predicate IsExpansion(location: Point3D, cluster: Cluster, radiuses: seq<real>, circles: Circles, valid: seq<bool>) {
    && cluster.members != [] && location.z == cluster.members[0].pos.z
    && |valid| == |QueriesAround(cluster.center, radiuses, circles)|
    && Chosen(Flat(location), QueriesAround(cluster.center, radiuses, circles), valid, Flat(cluster.center))
  }

  /** The p-th point kept of the q-th circle may be built on: its result says so, and it is not
      beyond the distance to begin with. */
  ghost predicate Buildable(center: Point3D, radiuses: seq<real>, circles: Circles, valid: seq<bool>, q: nat, p: nat) {
    && q < |radiuses| && p < |Kept(circles(radiuses[q], center))|
    && KeptBefore(center, radiuses, circles, q) + p < |valid| && valid[KeptBefore(center, radiuses, circles, q) + p]
    && DistanceSquared2D(Kept(circles(radiuses[q], center))[p], Flat(center)) < FAR * FAR
  }

  /** The location is one of the buildable points of all circles, and none of those is nearer;
      when there is none, it is the origin. */
  lemma ExpansionIsNearest(location: Point3D, cluster: Cluster, radiuses: seq<real>, circles: Circles, valid: seq<bool>)
    requires IsExpansion(location, cluster, radiuses, circles, valid)
    ensures forall q: nat, p: nat :: Buildable(cluster.center, radiuses, circles, valid, q, p) ==>
      DistanceSquared2D(Flat(location), Flat(cluster.center))
      <= DistanceSquared2D(Kept(circles(radiuses[q], cluster.center))[p], Flat(cluster.center))
    ensures if exists q: nat, p: nat :: Buildable(cluster.center, radiuses, circles, valid, q, p) then
      exists q: nat, p: nat :: Buildable(cluster.center, radiuses, circles, valid, q, p)
        && Flat(location) == Kept(circles(radiuses[q], cluster.center))[p]
      else Flat(location) == Point2D(0.0, 0.0)
  {
    hide Kept, DistanceSquared2D, FAR, QueriesAround, KeptBefore;
    var center := cluster.center;
    var asked := QueriesAround(center, radiuses, circles);
    AllRadiusesAreAsked(center, radiuses, circles);
    forall q: nat, p: nat | Buildable(center, radiuses, circles, valid, q, p)
      ensures Eligible(asked, valid, Flat(center), KeptBefore(center, radiuses, circles, q) + p)
    {
      assert HoldsCircle(asked, center, radiuses, circles, q);
    }
    if exists j: nat :: Eligible(asked, valid, Flat(center), j) {
      var j: nat :| Eligible(asked, valid, Flat(center), j) && Flat(location) == asked[j]
        && IsFirstNearest(asked, valid, Flat(center), j);
      var q, p := CircleOf(center, radiuses, circles, j, |radiuses|);
      assert HoldsCircle(asked, center, radiuses, circles, q);
      assert Buildable(center, radiuses, circles, valid, q, p);
      forall q: nat, p: nat | Buildable(center, radiuses, circles, valid, q, p)
        ensures DistanceSquared2D(asked[j], Flat(center)) <= DistanceSquared2D(Kept(circles(radiuses[q], center))[p], Flat(center))
      {
        assert HoldsCircle(asked, center, radiuses, circles, q);
        assert Eligible(asked, valid, Flat(center), KeptBefore(center, radiuses, circles, q) + p);
      }
    }
  }

  function Slice(results: seq<bool>, start: nat, size: nat): seq<bool> {
    if start + size <= |results| then results[start..start + size] else []
  }

  /** The first n locations are right, by the results in the slice of their own cluster. */
  ghost predicate AreExpansions(locations: seq<Point3D>, clusters: seq<Cluster>, radiuses: seq<real>, circles: Circles,
                                results: seq<bool>, n: nat)
    requires n <= |locations| && n <= |clusters|
  {
    forall i :: 0 <= i < n ==> IsExpansion(locations[i], clusters[i], radiuses, circles,
      Slice(results, StartOf(clusters, radiuses, circles, i), |QueriesAround(clusters[i].center, radiuses, circles)|))
  }

  method ClusterQueries(center: Point3D, radiuses: seq<real>, circles: Circles, queries: seq<Point2D>)
    returns (extended: seq<Point2D>, queryCount: nat)
    ensures extended == queries + QueriesAround(center, radiuses, circles)
    ensures queryCount == |QueriesAround(center, radiuses, circles)|
    ensures queries <= extended && HoldsCircles(extended[|queries|..], center, radiuses, circles)
  {
    hide Kept, HoldsCircles;
    AllRadiusesAreAsked(center, radiuses, circles);
    extended, queryCount := queries, 0;
    for i := 0 to |radiuses|
      invariant extended == queries + QueriesAround(center, radiuses[..i], circles)
      invariant queryCount == |QueriesAround(center, radiuses[..i], circles)|
    {
      assert radiuses[..i + 1][..i] == radiuses[..i];
      var count;
      extended, count := CalculateQueries(circles(radiuses[i], center), extended);
      queryCount := queryCount + count;
    }
    assert radiuses[..|radiuses|] == radiuses;
    assert extended[|queries|..] == QueriesAround(center, radiuses, circles);
  }

  /** The queries of all clusters, and how many each has. */
  method AskedFor(clusters: seq<Cluster>, radiuses: seq<real>, circles: Circles)
    returns (queries: seq<Point2D>, querySize: seq<nat>)
    ensures queries == AllQueries(clusters, radiuses, circles) && |querySize| == |clusters|
    ensures forall i :: 0 <= i < |clusters| ==> querySize[i] == |QueriesAround(clusters[i].center, radiuses, circles)|
  {
    hide QueriesAround;
    queries, querySize := [], [];
    for i := 0 to |clusters|
      invariant queries == AllQueries(clusters[..i], radiuses, circles) && |querySize| == i
      invariant forall k :: 0 <= k < i ==> querySize[k] == |QueriesAround(clusters[k].center, radiuses, circles)|
    {
      assert clusters[..i + 1][..i] == clusters[..i];
      var count;
      queries, count := ClusterQueries(clusters[i].center, radiuses, circles, queries);
      querySize := querySize + [count];
    }
    assert clusters[..|clusters|] == clusters;
  }

  method CalculateExpansionLocations(resources: seq<Resource>, radiuses: seq<real>, circles: Circles, apart: real,
                                     reply: PlacementReply)
    returns (result: Option<seq<Point3D>>)
    ensures result.None? <==> TooFarApart(resources, apart)
    ensures var clusters := Clustered(resources, apart);
      var results := PlacedAt(|AllQueries(clusters, radiuses, circles)|, reply);
      result.Some? ==>
        && |result.value| == |clusters|
        && AreExpansions(result.value, clusters, radiuses, circles, results, |clusters|)
  {
    hide Clustered, AllQueries, QueriesAround, Chosen, PlacedAt, CenterIsMean, FAR;
    var found := ClusterUnits(resources, apart);
    if found.None? {
      return None;
    }
    var clusters := found.value;
    NoneIsEmpty(resources, apart);
    var queries, querySize := AskedFor(clusters, radiuses, circles);
    var results := Placement(queries, reply);
    var locations := [];
    var startIndex := 0;
    NoneBefore(clusters, radiuses, circles);
    for i := 0 to |clusters|
      invariant |locations| == i && startIndex == StartOf(clusters, radiuses, circles, i)
      invariant AreExpansions(locations, clusters, radiuses, circles, results, i)
    {
      hide StartOf;
      SliceIsOwn(clusters, radiuses, circles, i);
      assert Slice(results, startIndex, querySize[i]) == results[startIndex..startIndex + querySize[i]];
      var cluster := clusters[i];
      var closest := NearestValid(queries, results, Flat(cluster.center), startIndex, querySize[i]);
      locations := locations + [Point3D(closest.x, closest.y, cluster.members[0].pos.z)];
      startIndex := startIndex + querySize[i];
    }
    return Some(locations);
  }

  lemma NoneBefore(clusters: seq<Cluster>, radiuses: seq<real>, circles: Circles)
    ensures StartOf(clusters, radiuses, circles, 0) == 0
  {
  }

  lemma NoneIsEmpty(units: seq<Resource>, apart: real)
    ensures forall k :: 0 <= k < |Clustered(units, apart)| ==> Clustered(units, apart)[k].members != []
  {
    ClustersPartition(units, apart);
  }
}
