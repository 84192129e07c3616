/** Writing a polygon as offsets and reading it back, as the map editor in Python does. */
module PolygonFile {
  import opened ClosedPaths
  import opened Options
  import opened Sequences
  import opened Torus

  function Wedge(p: Vec, q: Vec): int { p.x * q.y - q.x * p.y }

  /** Twice the area, positive when the corners run counter-clockwise in a plane with y upwards. */
  function Area(l: seq<Vec>): int
    requires l != []
  {
    Round(l, Wedge)
  }

  /** Twice the area of a triangle, positive when c lies to the left of the way from a to b. */
  function LeftOf(a: Vec, b: Vec, c: Vec): int { (b.x - a.x) * (c.y - a.y) - (b.y - a.y) * (c.x - a.x) }

  lemma LeftOfWedges(a: Vec, b: Vec, c: Vec)
    ensures LeftOf(a, b, c) == Wedge(a, b) + Wedge(b, c) + Wedge(c, a)
    ensures Wedge(b, a) == -Wedge(a, b) && Wedge(a, a) == 0
  {}

  /** A corner put in before the first adds the triangle it makes with its neighbours, so the area is that of the fan
      of triangles at the first corner. */
  lemma AreaGrows(points: seq<Vec>, q: Vec)
    requires points != []
    ensures Area(points + [q]) == Area(points) + LeftOf(points[0], points[|points| - 1], q)
    ensures |points| == 1 ==> Area(points) == 0
  {
    hide Wedge;
    PathExtends(points, q, Wedge);
    LeftOfWedges(points[0], points[|points| - 1], q);
  }

  method IsCounterClockwise(points: seq<Vec>) returns (yes: bool)
    requires points != []
    ensures yes <==> Area(points) > 0
  {
    var p1, area := points[|points| - 1], 0;
    for i := 0 to |points|
      invariant p1 == if i == 0 then points[|points| - 1] else points[i - 1]
      invariant area == if i == 0 then 0 else Wedge(points[|points| - 1], points[0]) + Path(points[..i], Wedge)
    {
      var p2 := points[i];
      area := area + (p1.x * p2.y - p2.x * p1.y);
      if i > 0 {
        PathExtends(points[..i], p2, Wedge);
        assert points[..i + 1] == points[..i] + [p2];
      }
      p1 := p2;
    }
    assert points[..|points|] == points;
    yes := area > 0;
  }

  /** A polygon element: a start and an offset for every corner. */
  datatype Saved = Saved(start: Vec, offsets: seq<Vec>)

  function Sum(offsets: seq<Vec>): Vec {
    if offsets == [] then Vec(0, 0) else Plus(Sum(offsets[..|offsets| - 1]), offsets[|offsets| - 1])
  }

  /** The corners in the order in which their offsets are written, the start last. */
  function WriteOrder(points: seq<Vec>): seq<Vec>
    requires points != []
  {
    if Area(points) > 0 then points[1..] + [points[0]] else Reversed(points)
  }

  /** The point before order[i] on a path that starts at p. */
  function Before(p: Vec, order: seq<Vec>, i: nat): Vec
    requires i <= |order|
  {
    if i == 0 then p else order[i - 1]
  }

  /** Differences of consecutive points, the first one to p. */
  function Differences(p: Vec, order: seq<Vec>): (r: seq<Vec>)
    ensures |r| == |order|
    ensures forall i :: 0 <= i < |order| ==> r[i] == Minus(order[i], Before(p, order, i))
  {
    if order == [] then []
    else
      var n := |order| - 1;
      Differences(p, order[..n]) + [Minus(order[n], Before(p, order, n))]
  }

  function Save(points: seq<Vec>): Option<Saved> {
    if |points| < 3 then None
    else Some(Saved(points[0], Differences(points[0], WriteOrder(points))))
  }

  method PrintXml(points: seq<Vec>) returns (saved: Option<Saved>)
    ensures saved == Save(points)
  {
    hide Area;
    if |points| < 3 { return None; }
    var order := points;
    var ccw := IsCounterClockwise(points);
    if !ccw {
      order := Reversed(order);
    } else {
      order := order[1..] + [order[0]];
    }
    WriteOrderLast(points);
    var offsets := WriteOffsets(order);
    saved := Some(Saved(points[0], offsets));
  }

  method WriteOffsets(order: seq<Vec>) returns (offsets: seq<Vec>)
    requires order != []
    ensures offsets == Differences(order[|order| - 1], order)
  {
    hide Differences;
    var pp := order[|order| - 1];
    offsets := [];
    assert Differences(pp, order[..0]) == [];
    for i := 0 to |order|
      invariant pp == if i == 0 then order[|order| - 1] else order[i - 1]
      invariant offsets == Differences(order[|order| - 1], order[..i])
    {
      var p := order[i];
      DifferencesExtend(order[|order| - 1], order, i);
      offsets := offsets + [Vec(p.x - pp.x, p.y - pp.y)];
      pp := p;
    }
    assert order[..|order|] == order;
  }

  lemma WriteOrderLast(points: seq<Vec>)
    requires points != []
    ensures |WriteOrder(points)| == |points| && WriteOrder(points)[|points| - 1] == points[0]
  {
    hide Area;
  }

  lemma DifferencesExtend(p: Vec, order: seq<Vec>, i: nat)
    requires i < |order|
    ensures Differences(p, order[..i + 1]) == Differences(p, order[..i]) + [Minus(order[i], Before(p, order, i))]
  {
    assert order[..i + 1][..i] == order[..i];
  }

  /** The corners reached from the start by all offsets but the last. */
  function Corners(saved: Saved): (r: seq<Vec>)
    requires saved.offsets != []
    ensures |r| == |saved.offsets|
  {
    seq(|saved.offsets|, i requires 0 <= i < |saved.offsets| => Plus(saved.start, Sum(saved.offsets[..i])))
  }

  method LoadPolygon(saved: Saved) returns (points: seq<Vec>)
    requires saved.offsets != []
    ensures points == Corners(saved)
  {
    var x, y := saved.start.x, saved.start.y;
    points := [Vec(x, y)];
    for i := 0 to |saved.offsets| - 1
      invariant |points| == i + 1 && Vec(x, y) == Plus(saved.start, Sum(saved.offsets[..i]))
      invariant forall j :: 0 <= j <= i ==> points[j] == Plus(saved.start, Sum(saved.offsets[..j]))
    {
      assert saved.offsets[..i + 1][..i] == saved.offsets[..i];
      x, y := x + saved.offsets[i].x, y + saved.offsets[i].y;
      points := points + [Vec(x, y)];
    }
  }

  lemma {:induction false} SumOfDifferences(p: Vec, order: seq<Vec>, k: nat)
    requires k <= |order|
    ensures Plus(p, Sum(Differences(p, order)[..k])) == if k == 0 then p else order[k - 1]
  {
    if k > 0 {
      SumOfDifferences(p, order, k - 1);
      assert Differences(p, order)[..k][..k - 1] == Differences(p, order)[..k - 1];
    }
  }

  /** The written offsets close the polygon. */
  lemma OffsetsCancel(points: seq<Vec>)
    requires |points| >= 3
    ensures Sum(Save(points).value.offsets) == Vec(0, 0)
  {
    hide WriteOrder, Area, Sum;
    var order := WriteOrder(points);
    WriteOrderLast(points);
    SumOfDifferences(points[0], order, |order|);
    assert Differences(points[0], order)[..|order|] == Differences(points[0], order);
  }

  /** The same polygon run through the other way from the same corner. */
  function Turned(points: seq<Vec>): seq<Vec>
    requires points != []
  {
    [points[0]] + Reversed(points[1..])
  }

  /** What a save and a load make of a polygon. */
  function Reloaded(points: seq<Vec>): seq<Vec>
    requires |points| >= 3
  {
    Corners(Save(points).value)
  }

  /** The same list if it was counter-clockwise, else the reversed list from the same corner. */
  lemma ReloadedIs(points: seq<Vec>)
    requires |points| >= 3
    ensures Reloaded(points) == if Area(points) > 0 then points else Turned(points)
  {
    hide Area, WriteOrder, Differences, Sum;
    var order, r := WriteOrder(points), Reloaded(points);
    WriteOrderLast(points);
    assert |r| == |points|;
    if Area(points) > 0 {
      forall i | 0 <= i < |points| ensures r[i] == points[i] {
        SumOfDifferences(points[0], order, i);
        if i > 0 { WriteOrderAt(points, i); }
      }
    } else {
      TurnedAt(points);
      forall i | 0 <= i < |points| ensures r[i] == Turned(points)[i] {
        SumOfDifferences(points[0], order, i);
        if i > 0 { WriteOrderAt(points, i); }
      }
    }
  }

  lemma TurnedAt(points: seq<Vec>)
    requires points != []
    ensures |Turned(points)| == |points| && forall i :: 0 < i < |points| ==> Turned(points)[i] == points[|points| - i]
  {}

  lemma WriteOrderAt(points: seq<Vec>, i: nat)
    requires 0 < i < |points|
    ensures |WriteOrder(points)| == |points|
    ensures WriteOrder(points)[i - 1] == if Area(points) > 0 then points[i] else points[|points| - i]
  {
    hide Area;
  }

  lemma WedgeSigned()
    ensures Sensed(Wedge, true)
  {}

  lemma TurnedArea(points: seq<Vec>)
    requires points != []
    ensures Area(Turned(points)) == -Area(points)
  {
    var r, n := Reversed(points), |points|;
    WedgeSigned();
    RoundReversed(points, Wedge, true);
    RoundRotated(r, n - 1, Wedge);
    assert r[n - 1..] + r[..n - 1] == Turned(points);
  }

  lemma TurnedTwice(points: seq<Vec>)
    requires points != []
    ensures Turned(Turned(points)) == points
  {}

  /** A second save and load changes nothing exactly when the area is not zero or the polygon is its own reversal. */
  lemma ReloadSettles(points: seq<Vec>)
    requires |points| >= 3
    ensures |Reloaded(points)| == |points|
    ensures Reloaded(Reloaded(points)) == Reloaded(points) <==> Area(points) != 0 || Turned(points) == points
  {
    hide Area, Reloaded;
    ReloadedIs(points);
    ReloadedIs(Turned(points));
    TurnedArea(points);
    TurnedTwice(points);
  }

  lemma TriangleArea(l: seq<Vec>)
    requires |l| == 3
    ensures Area(l) == Wedge(l[2], l[0]) + Wedge(l[0], l[1]) + Wedge(l[1], l[2])
  {
    hide Wedge;
    assert Path(l[2..], Wedge) == 0 && l[1..][1..] == l[2..];
    assert Path(l[1..], Wedge) == Wedge(l[1], l[2]);
  }

  lemma FlatReverses(points: seq<Vec>)
    requires |points| >= 3 && Area(points) == 0 && points[1] != points[|points| - 1]
    ensures |Reloaded(points)| == |points| && Reloaded(Reloaded(points)) != Reloaded(points)
  {
    hide Turned, Reloaded, Area;
    TurnedAt(points);
    assert Turned(points)[1] == points[|points| - 1];
    ReloadSettles(points);
  }

  lemma LevelWedge(p: Vec, q: Vec)
    requires p.y == 0 && q.y == 0
    ensures Wedge(p, q) == 0
  {}

  /** Three corners on a line are reversed by every save and load. */
  lemma FlatTurns(l: seq<Vec>)
    requires |l| == 3 && l[0] == Vec(0, 0) && l[1] == Vec(1, 0) && l[2] == Vec(2, 0)
    ensures Area(l) == 0 && |Reloaded(l)| == 3 && Reloaded(Reloaded(l)) != Reloaded(l)
  {
    hide Reloaded, Area, Wedge;
    TriangleArea(l);
    LevelWedge(l[2], l[0]);
    LevelWedge(l[0], l[1]);
    LevelWedge(l[1], l[2]);
    FlatReverses(l);
  }
}
