/** polydir: the number of times an outline turns around, counted by half-plane crossings. */
module Winding {
  import opened Torus
  import opened Blocks
  import opened Outline
  import opened Trace
  import opened Starts

  /** Signed turn from direction d to direction e in eighths, left positive. */
  function Turn(d: Dir, e: Dir): int { (e - d + 3) % 8 - 3 }

  function Previous(ds: seq<Dir>, i: nat): Dir
    requires i < |ds|
  {
    ds[if i == 0 then |ds| - 1 else i - 1]
  }

  /** Sum of the first n turns of a closed sequence of directions. */
  function TurnSum(ds: seq<Dir>, n: nat): int
    requires n <= |ds|
  {
    if n == 0 then 0 else TurnSum(ds, n - 1) + Turn(Previous(ds, n - 1), ds[n - 1])
  }

  /** The direction of a unit offset. */
  function DirOf(off: Vec): Dir {
    if off == Vec(1, 0) then 0
    else if off == Vec(1, -1) then 1
    else if off == Vec(0, -1) then 2
    else if off == Vec(-1, -1) then 3
    else if off == Vec(-1, 0) then 4
    else if off == Vec(-1, 1) then 5
    else if off == Vec(0, 1) then 6
    else 7
  }

  lemma DirOfUnit(d: Dir)
    ensures DirOf(Unit(d)) == d
  {}

  function DirsOf(poly: seq<Edge>): (ds: seq<Dir>)
    ensures |ds| == |poly|
  {
    seq(|poly|, i requires 0 <= i < |poly| => DirOf(poly[i].off))
  }

  /** The outline moves by unit steps and never straight back. */
  ghost predicate Heads(poly: seq<Edge>) {
    var ds := DirsOf(poly);
    (forall i :: 0 <= i < |poly| ==> poly[i].off == Unit(ds[i])) &&
    forall i {:trigger Previous(ds, i)} :: 0 <= i < |ds| ==> ds[i] != Turned(Previous(ds, i), 4)
  }

  /** Number of full turns to the left along the closed outline. */
  ghost function FullTurns(poly: seq<Edge>): int {
    TurnSum(DirsOf(poly), |poly|) / 8
  }

  /** Lines between the upper and the lower half-plane passed at an unrolled heading. */
  function Passed(heading: int): int {
    2 * (heading / 8) + (if heading % 8 >= 1 then 1 else 0) + (if heading % 8 >= 4 then 1 else 0)
  }

  function Side(a: Vec, b: Vec): int { a.x * b.y - b.x * a.y }

  function Crossing(a: Vec, b: Vec): int {
    if (a.y >= 0) == (b.y >= 0) then 0
    else
      var side := Side(a, b);
      if side == 0 then 0 else if side > 0 then -1 else 1
  }

  lemma PassedShift(q: int, t: int)
    requires -8 < t < 16
    ensures Passed(8 * q + t) == 2 * q + Passed(t) && (8 * q + t) % 8 == t % 8
  {
    hide Passed;
    var k := if t < 0 then -1 else if t < 8 then 0 else 1;
    PassedOf(t, k, t - 8 * k);
    PassedOf(8 * q + t, q + k, t - 8 * k);
    ModUnique(t, 8, k, t - 8 * k);
    ModUnique(8 * q + t, 8, q + k, t - 8 * k);
  }

  lemma CrossingCounts(heading: int, d: Dir, e: Dir)
    requires heading % 8 == d && e != Turned(d, 4)
    ensures Passed(heading + Turn(d, e)) - Passed(heading) == Crossing(Unit(d), Unit(e))
    ensures (heading + Turn(d, e)) % 8 == e
  {
    hide Passed, Crossing, Unit;
    var q := heading / 8;
    var t := d + Turn(d, e);
    assert heading + Turn(d, e) == 8 * q + t;
    assert -8 < t < 16 && t % 8 == e;
    PassedShift(q, t);
    PassedShift(q, d);
    CrossingTable(d, e);
  }

  lemma CrossingTable(d: Dir, e: Dir)
    requires e != Turned(d, 4)
    ensures Passed(d + Turn(d, e)) - Passed(d) == Crossing(Unit(d), Unit(e))
  {
    hide Unit, Side, Turn, Crossing, Passed;
    TurnIs(d, e);
    PassedBy(d, Turn(d, e), e);
    SideSign(d, e);
    UnitSign(d);
    UnitSign(e);
    CrossingIs(Unit(d), Unit(e));
  }

  lemma TurnIs(d: Dir, e: Dir)
    requires e != Turned(d, 4)
    ensures var t := Turn(d, e); -3 <= t <= 3 && (e == d + t || e == d + t - 8 || e == d + t + 8)
  {}

  /** Directions that point down or level to the right. */
  predicate Low(d: Dir) { d == 0 || d >= 4 }

  /** A turn passes a line when it changes half-planes, in its own sense. */
  lemma PassedBy(d: Dir, t: int, e: Dir)
    requires -3 <= t <= 3 && (e == d + t || e == d + t - 8 || e == d + t + 8)
    ensures Passed(d + t) - Passed(d) == if Low(d) == Low(e) then 0 else if t > 0 then 1 else -1
  {
    PassedOf(d, 0, d);
    if e == d + t { PassedOf(d + t, 0, e); }
    else if e == d + t - 8 { PassedOf(d + t, 1, e); }
    else { PassedOf(d + t, -1, e); }
  }

  lemma PassedOf(heading: int, q: int, d: Dir)
    requires heading == 8 * q + d
    ensures Passed(heading) == 2 * q + (if d >= 1 then 1 else 0) + (if d >= 4 then 1 else 0)
  {
    ModUnique(heading, 8, q, d);
  }

  /** Two directions further left is a quarter turn, which leaves cross products alone. */
  lemma QuarterTurn(d: Dir, e: Dir)
    ensures Side(Unit(Turned(d, 2)), Unit(Turned(e, 2))) == Side(Unit(d), Unit(e))
    ensures Turn(Turned(d, 2), Turned(e, 2)) == Turn(d, e)
  {
    QuarterUnit(d);
    QuarterUnit(e);
    hide Unit;
    assert -Unit(d).x * Unit(e).y == -(Unit(d).x * Unit(e).y);
  }

  lemma QuarterUnit(d: Dir)
    ensures Unit(Turned(d, 2)) == Vec(Unit(d).y, -Unit(d).x)
  {}

  /** The sign of the cross product follows the sign of the turn. */
  lemma {:induction false} SideSign(d: Dir, e: Dir)
    requires e != Turned(d, 4)
    ensures Turn(d, e) > 0 ==> Side(Unit(d), Unit(e)) < 0
    ensures Turn(d, e) < 0 ==> Side(Unit(d), Unit(e)) > 0
    decreases d
  {
    if d == 0 {
      SideSign0(e);
    } else if d == 1 {
      SideSign1(e);
    } else {
      hide Unit, Side, Turn;
      var e' := Turned(e, -2);
      assert Turned(e', 2) == e && Turned(d - 2, 2) == d && e' != Turned(d - 2, 4);
      SideSign(d - 2, e');
      QuarterTurn(d - 2, e');
    }
  }

  lemma SideSign0(e: Dir)
    requires e != 4
    ensures Turn(0, e) > 0 ==> Side(Unit(0), Unit(e)) < 0
    ensures Turn(0, e) < 0 ==> Side(Unit(0), Unit(e)) > 0
  {}

  lemma SideSign1(e: Dir)
    requires e != 5
    ensures Turn(1, e) > 0 ==> Side(Unit(1), Unit(e)) < 0
    ensures Turn(1, e) < 0 ==> Side(Unit(1), Unit(e)) > 0
  {}

  lemma UnitSign(d: Dir)
    ensures Unit(d).y >= 0 <==> Low(d)
  {}

  lemma CrossingIs(a: Vec, b: Vec)
    ensures (a.y >= 0) == (b.y >= 0) ==> Crossing(a, b) == 0
    ensures (a.y >= 0) != (b.y >= 0) ==>
              var side := Side(a, b);
              Crossing(a, b) == if side == 0 then 0 else if side > 0 then -1 else 1
  {}

  /** After i edges, wind has counted the half-plane lines passed since the last edge's heading. */
  ghost predicate Wound(ds: seq<Dir>, i: nat, d: Vec, wind: int)
    requires i <= |ds| && |ds| > 0
  {
    var start := ds[|ds| - 1];
    var cur := if i == 0 then start else ds[i - 1];
    d == Unit(cur) && (start + TurnSum(ds, i)) % 8 == cur && wind == Passed(start + TurnSum(ds, i)) - Passed(start)
  }

  lemma WoundStep(poly: seq<Edge>, i: nat, d: Vec, wind: int)
    requires i < |poly| && Heads(poly) && Wound(DirsOf(poly), i, d, wind)
    ensures Wound(DirsOf(poly), i + 1, poly[i].off, wind + Crossing(d, poly[i].off))
  {
    hide Passed, Turn, Unit, Turned, Crossing, DirOf;
    var ds := DirsOf(poly);
    CrossingCounts(ds[|ds| - 1] + TurnSum(ds, i), Previous(ds, i), ds[i]);
    assert TurnSum(ds, i + 1) == TurnSum(ds, i) + Turn(Previous(ds, i), ds[i]);
  }

  lemma WoundStart(poly: seq<Edge>)
    requires |poly| > 0 && Heads(poly)
    ensures Wound(DirsOf(poly), 0, poly[|poly| - 1].off, 0)
  {
    hide DirOf, Unit;
  }

  lemma WoundUp(poly: seq<Edge>, d: Vec, wind: int)
    requires |poly| > 0 && Wound(DirsOf(poly), |poly|, d, wind)
    ensures wind / 2 == FullTurns(poly) && TurnSum(DirsOf(poly), |poly|) == 8 * FullTurns(poly)
  {
    hide Passed, TurnSum, DirsOf, Unit;
    var ds := DirsOf(poly);
    WholeTurns(ds[|ds| - 1], TurnSum(ds, |ds|));
  }

  /** The crossings of an outline, halved, are its number of full turns; its turns add up to whole turns. */
  method PolyDir(poly: seq<Edge>) returns (turns: int)
    requires |poly| > 0 && Heads(poly)
    ensures turns == FullTurns(poly) && TurnSum(DirsOf(poly), |poly|) == 8 * turns
  {
    hide Heads, Wound, Crossing, Side;
    var d := poly[|poly| - 1].off;
    var wind := 0;
    WoundStart(poly);
    for i := 0 to |poly|
      invariant Wound(DirsOf(poly), i, d, wind)
    {
      var off := poly[i].off;
      WoundStep(poly, i, d, wind);
      CrossingIs(d, off);
      if (d.y >= 0) != (off.y >= 0) {
        var side := Side(d, off);
        if side != 0 {
          if side > 0 { wind := wind - 1; } else { wind := wind + 1; }
        }
      }
      d := off;
    }
    WoundUp(poly, d, wind);
    turns := wind / 2;
  }

  lemma WholeTurns(start: int, sum: int)
    requires (start + sum) % 8 == start % 8
    ensures sum == 8 * (sum / 8) && Passed(start + sum) - Passed(start) == 2 * (sum / 8)
  {
    assert start == 8 * (start / 8) + start % 8;
    assert start + sum == 8 * ((start + sum) / 8) + start % 8;
  }

  /** The outlines traced on a map qualify: their directions never reverse. */
  lemma TracedHeads(m: BlockMap, poly: seq<Edge>, t: seq<State>)
    requires m.Valid() && Cycle(m, t) && Follows(m, poly, t)
    ensures Heads(poly)
  {
    hide Step, Boundary, Unit, DirOf, Turned;
    var ds := DirsOf(poly);
    forall i | 0 <= i < |ds|
      ensures ds[i] == t[i].d
    {
      DirOfUnit(t[i].d);
    }
    forall i {:trigger Previous(ds, i)} | 0 <= i < |ds|
      ensures ds[i] != Turned(Previous(ds, i), 4)
    {
      var s := t[if i == 0 then |t| - 1 else i - 1];
      assert t[i] == Step(m, s) && s.d == Previous(ds, i);
      StepNoReversal(m, s);
    }
  }
}
