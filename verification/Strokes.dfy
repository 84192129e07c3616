/** Printed elements as strokes of the pen: along which border edges each goes, and where the pen is in between. */
module Strokes {
  import opened Torus
  import opened Blocks
  import opened Partition
  import opened Outline
  import opened EdgeCover
  import opened Tour
  import opened Conversion
  import opened VisibleRecs
  import opened RecordWalks
  import EdgeRuns

  const BCLICKS := EdgeRuns.BCLICKS

  /** Every visible record of the walk is a border edge of part k. */
  ghost predicate AlongBorder(m: BlockMap, labels: Labels, k: nat, walk: seq<Rec>)
    requires m.Valid() && labels.Valid()
  {
    forall t :: 0 <= t < |walk| && !walk[t].hidden ==> OnBorder(m, labels, k, walk[t])
  }

  /** The record is the border edge of part k that leaves its place in direction d: walls of the part are on its left
      and open space is on its right. */
  ghost predicate EdgeOf(m: BlockMap, labels: Labels, k: nat, r: Rec, d: Dir)
    requires m.Valid() && labels.Valid()
  {
    r.off == Unit(d) && var s := State(m.Home(r.pos), d); Boundary(m, s) && InPart(labels, s, k)
  }

  /** A stroke over records a to b - 1: all of one kind, and, where visible, border edges in one direction, as long as
      all of them together. */
  ghost predicate Stroke(m: BlockMap, labels: Labels, k: nat, walk: seq<Rec>, a: nat, b: nat, stroke: EdgeRuns.Edge)
    requires m.Valid() && labels.Valid()
  {
    a < b <= |walk| && (forall t :: a <= t < b ==> walk[t].hidden == stroke.hidden) &&
    (!stroke.hidden ==>
      exists d: Dir :: StraightOn(m, labels, k, walk, a, b, d) && stroke.off == Pixels(Unit(d), b - a))
  }

  /** So many blocks in a direction, in pixels, y upwards. */
  function Pixels(v: Vec, n: nat): Vec { Vec(v.x * BCLICKS * n, -v.y * BCLICKS * n) }

  ghost predicate StraightOn(m: BlockMap, labels: Labels, k: nat, walk: seq<Rec>, a: nat, b: nat, d: Dir)
    requires m.Valid() && labels.Valid() && b <= |walk|
  {
    forall t :: a <= t < b ==> EdgeOf(m, labels, k, walk[t], d)
  }

  lemma UnitsParallel(d: Dir, e: Dir)
    requires Parallel(Unit(d), Unit(e))
    ensures e == d || e == Turned(d, 4)
  {}

  /** No border edge goes straight back along another. */
  lemma {:induction false} NoReturn(m: BlockMap, labels: Labels, k: nat, r: Rec, s: Rec, d: Dir, e: Dir)
    requires m.Valid() && labels.Valid() && EdgeOf(m, labels, k, r, d) && EdgeOf(m, labels, k, s, e)
    requires Congruent(Plus(r.pos, r.off), s.pos, m.width, m.height) && Parallel(Unit(d), Unit(e))
    ensures e == d
  {
    hide InPart, Solid, Unit;
    assert m.Home(Plus(r.pos, r.off)) == m.Home(s.pos);
    UnitsParallel(d, e);
    if e == Turned(d, 4) {
      BordersHome(m, r.pos, d);
      EdgeSides(m, r.pos, d);
      BordersHome(m, s.pos, e);
      BordersHome(m, Plus(r.pos, r.off), e);
    }
  }

  lemma PixelsParallel(v: Vec, w: Vec, n: nat)
    requires n > 0 && Parallel(Pixels(v, n), EdgeRuns.Scaled(w))
    ensures Parallel(v, w)
  {
    var c := BCLICKS * n;
    assert (v.x * BCLICKS * n) * (-w.y * BCLICKS) == -((c * BCLICKS) * (v.x * w.y));
    assert (-v.y * BCLICKS * n) * (w.x * BCLICKS) == -((c * BCLICKS) * (v.y * w.x));
    assert (c * BCLICKS) * (v.x * w.y - v.y * w.x) == 0;
    assert c * BCLICKS > 0;
  }

  lemma {:induction false} RecDir(m: BlockMap, labels: Labels, k: nat, walk: seq<Rec>, t: nat) returns (d: Dir)
    requires m.Valid() && labels.Valid() && AlongBorder(m, labels, k, walk) && t < |walk| && !walk[t].hidden
    ensures EdgeOf(m, labels, k, walk[t], d)
  {
    hide Boundary, InPart, Unit;
    assert OnBorder(m, labels, k, walk[t]);
    d :| walk[t].off == Unit(d) && var s := State(m.Home(walk[t].pos), d); Boundary(m, s) && InPart(labels, s, k);
  }

  /** The record after another begins where that one ends. */
  lemma {:induction false} LeadsNext(recs: seq<Rec>, a: Vec, b: Vec, j: nat, width: int, height: int)
    requires width > 0 && height > 0 && Leads(recs, a, b, width, height, false) && j + 1 < |recs|
    ensures Congruent(Plus(recs[j].pos, recs[j].off), recs[j + 1].pos, width, height)
  {
    hide Congruent;
    LeadsHere(recs, a, b, j + 1, width, height);
    assert recs[..j + 1][j] == recs[j];
  }

  lemma PixelsNext(v: Vec, n: nat)
    ensures Plus(Pixels(v, n), EdgeRuns.Scaled(v)) == Pixels(v, n + 1)
  {
    assert v.x * BCLICKS * n + v.x * BCLICKS == v.x * BCLICKS * (n + 1);
    assert -v.y * BCLICKS * n + -v.y * BCLICKS == -v.y * BCLICKS * (n + 1);
  }

  /** Visible edges that lie along one line go one way. */
  lemma {:induction false} RunStraight(m: BlockMap, labels: Labels, k: nat, walk: seq<Rec>, edges: seq<EdgeRuns.Edge>,
                                       a: nat, b: nat, from: Vec, to: Vec) returns (d: Dir)
    requires m.Valid() && labels.Valid() && AlongBorder(m, labels, k, walk) && a < b <= |walk|
    requires Leads(walk, from, to, m.width, m.height, false) && edges == EdgeRuns.Clicks(AsEdges(walk))
    requires EdgeRuns.OneKind(edges, a, b, false) && EdgeRuns.OneWay(edges, a, b)
    ensures StraightOn(m, labels, k, walk, a, b, d) && EdgeRuns.Total(edges[a..b]) == Pixels(Unit(d), b - a)
  {
    hide AlongBorder, Leads, EdgeOf, Unit, EdgeRuns.Total, Parallel;
    var n := b - 1;
    assert !walk[n].hidden;
    EdgeRuns.RunGrows(edges, a, n);
    var e := RecDir(m, labels, k, walk, n);
    RecOff(m, labels, k, walk[n], e);
    if a == n {
      d := e;
      EdgeRuns.EmptyTotal(edges, a);
    } else {
      d := RunStraight(m, labels, k, walk, edges, a, n, from, to);
      LeadsNext(walk, from, to, n - 1, m.width, m.height);
      PixelsParallel(Unit(d), Unit(e), n - a);
      NoReturn(m, labels, k, walk[n - 1], walk[n], d, e);
    }
    PixelsNext(Unit(d), n - a);
  }

  lemma {:induction false} RecOff(m: BlockMap, labels: Labels, k: nat, r: Rec, d: Dir)
    requires m.Valid() && labels.Valid() && EdgeOf(m, labels, k, r, d)
    ensures r.off == Unit(d)
  {}

  // ----- Where the pen is

  /** After the first i strokes the pen is at a corner of the map, up to whole map widths and heights. */
  ghost predicate PenAt(m: BlockMap, start: Vec, strokes: seq<EdgeRuns.Edge>, i: nat, corner: Vec)
    requires m.width > 0 && m.height > 0 && i <= |strokes|
  {
    var pen := Plus(start, EdgeRuns.Total(strokes[..i]));
    pen.x % (BCLICKS * m.width) == (BCLICKS * corner.x) % (BCLICKS * m.width) &&
    pen.y % (BCLICKS * m.height) == (-BCLICKS * corner.y) % (BCLICKS * m.height)
  }

  /** The corner reached after j records of a closed walk. */
  function CornerAfter(walk: seq<Rec>, j: nat): Vec
    requires walk != [] && j <= |walk|
  {
    walk[if j < |walk| then j else 0].pos
  }

  lemma ModScaled(a: int, n: int, c: int)
    requires n > 0 && c > 0
    ensures c * n > 0 && (c * a) % (c * n) == c * (a % n)
  {
    assert c * a == (a / n) * (c * n) + c * (a % n) by {
      assert a == (a / n) * n + a % n;
      assert c * ((a / n) * n) == (a / n) * (c * n);
    }
    assert c * (a % n) <= c * (n - 1) == c * n - c;
    assert c * n > 0 && c * (a % n) >= 0;
    ModUnique(c * a, c * n, a / n, c * (a % n));
  }

  /** A place in blocks, in pixels. */
  lemma ScaledMod(v: Vec, p: Vec, q: Vec, width: int, height: int)
    requires width > 0 && height > 0 && v == EdgeRuns.Scaled(p) && Congruent(p, q, width, height)
    ensures v.x % (BCLICKS * width) == (BCLICKS * q.x) % (BCLICKS * width)
    ensures v.y % (BCLICKS * height) == (-BCLICKS * q.y) % (BCLICKS * height)
  {
    ModScaled(p.x, width, BCLICKS);
    ModScaled(q.x, width, BCLICKS);
    NegCongruent(p.y, q.y, height);
    ModScaled(-p.y, height, BCLICKS);
    ModScaled(-q.y, height, BCLICKS);
    assert v.x == BCLICKS * p.x && v.y == BCLICKS * (-p.y) && -BCLICKS * q.y == BCLICKS * (-q.y);
  }

  lemma {:induction false} EdgesTo(walk: seq<Rec>, edges: seq<EdgeRuns.Edge>, j: nat)
    requires edges == EdgeRuns.Clicks(AsEdges(walk)) && j <= |walk|
    ensures EdgeRuns.Total(edges[..j]) == EdgeRuns.Scaled(OffsetSum(walk[..j]))
  {
    hide EdgeRuns.Total, OffsetSum, EdgeRuns.Scaled;
    assert edges[..j] == EdgeRuns.Clicks(AsEdges(walk[..j]));
    EdgeRuns.ClicksTotal(AsEdges(walk[..j]));
    EdgesTotal(walk[..j]);
  }

  lemma {:induction false} LeadsAfter(walk: seq<Rec>, j: nat, width: int, height: int)
    requires width > 0 && height > 0 && walk != [] && j <= |walk|
    requires Leads(walk, walk[0].pos, walk[0].pos, width, height, false)
    ensures Congruent(Plus(walk[0].pos, OffsetSum(walk[..j])), CornerAfter(walk, j), width, height)
  {
    hide Leads, OffsetSum, Congruent;
    var a := walk[0].pos;
    if j < |walk| {
      LeadsHere(walk, a, a, j, width, height);
    } else {
      assert walk[..j] == walk;
    }
    LeadsSum(walk[..j], a, CornerAfter(walk, j), width, height);
  }

  lemma ModMoved(s: int, p: int, t: int, q: int, n: int)
    requires n > 0 && s % n == p % n && (p + t) % n == q % n
    ensures (s + t) % n == q % n
  {
    ModCancel(s, p, t, n);
  }

  /** Started at the pixel of its first corner, the pen follows the walk. */
  lemma {:induction false} PenFollows(m: BlockMap, start: Vec, strokes: seq<EdgeRuns.Edge>, walk: seq<Rec>,
                                      edges: seq<EdgeRuns.Edge>, cuts: seq<nat>, i: nat)
    requires m.width > 0 && m.height > 0 && walk != [] && edges == EdgeRuns.Clicks(AsEdges(walk))
    requires Leads(walk, walk[0].pos, walk[0].pos, m.width, m.height, false)
    requires EdgeRuns.Covers(edges, strokes, cuts, |edges|) && i <= |strokes|
    requires start == Vec((walk[0].pos.x % m.width) * BCLICKS, (-walk[0].pos.y % m.height) * BCLICKS)
    ensures cuts[i] <= |walk| && PenAt(m, start, strokes, i, CornerAfter(walk, cuts[i]))
  {
    hide Leads, OffsetSum, EdgeRuns.Total;
    EdgeRuns.SameCorners(edges, strokes, cuts, |edges|, i);
    var a, j := walk[0].pos, cuts[i];
    var sum := OffsetSum(walk[..j]);
    EdgesTo(walk, edges, j);
    LeadsAfter(walk, j, m.width, m.height);
    ScaledMod(EdgeRuns.Scaled(Plus(a, sum)), Plus(a, sum), CornerAfter(walk, j), m.width, m.height);
    ModScaled(a.x, m.width, BCLICKS);
    ModScaled(-a.y, m.height, BCLICKS);
    StartMod(start.x, a.x, m.width);
    StartMod(start.y, -a.y, m.height);
    var t := EdgeRuns.Scaled(sum);
    var c := CornerAfter(walk, j);
    ModMoved(start.x, BCLICKS * a.x, t.x, BCLICKS * c.x, BCLICKS * m.width);
    ModMoved(start.y, BCLICKS * -a.y, t.y, -BCLICKS * c.y, BCLICKS * m.height);
  }

  lemma StartMod(s: int, a: int, n: int)
    requires n > 0 && s == (a % n) * BCLICKS
    ensures 0 <= s < BCLICKS * n && s % (BCLICKS * n) == (BCLICKS * a) % (BCLICKS * n)
  {
    ModScaled(a, n, BCLICKS);
    ModUnique(s, BCLICKS * n, 0, s);
  }

  // ----- A drawing

  /** The strokes draw the walk: each goes along its records, with the pen at their first corner before and at their
      last corner after it. */
  ghost predicate Draws(m: BlockMap, labels: Labels, k: nat, walk: seq<Rec>, start: Vec, strokes: seq<EdgeRuns.Edge>,
                        cuts: seq<nat>)
    requires m.Valid() && labels.Valid()
  {
    walk != [] && |cuts| == |strokes| + 1 && cuts[0] == 0 && cuts[|strokes|] == |walk| &&
    (forall i :: 0 <= i < |strokes| ==> Stroke(m, labels, k, walk, cuts[i], cuts[i + 1], strokes[i])) &&
    forall i :: 0 <= i < |cuts| ==> cuts[i] <= |walk| && PenAt(m, start, strokes, i, CornerAfter(walk, cuts[i]))
  }

  lemma {:induction false} StrokeOf(m: BlockMap, labels: Labels, k: nat, walk: seq<Rec>, edges: seq<EdgeRuns.Edge>,
                                    strokes: seq<EdgeRuns.Edge>, cuts: seq<nat>, i: nat, from: Vec, to: Vec)
    requires m.Valid() && labels.Valid() && AlongBorder(m, labels, k, walk)
    requires Leads(walk, from, to, m.width, m.height, false) && edges == EdgeRuns.Clicks(AsEdges(walk))
    requires i < |strokes| && |cuts| == |strokes| + 1 && EdgeRuns.RunAt(edges, strokes, cuts, i)
    ensures Stroke(m, labels, k, walk, cuts[i], cuts[i + 1], strokes[i])
  {
    hide AlongBorder, Leads, StraightOn, Unit, Pixels, EdgeRuns.Total, EdgeRuns.OneWay;
    if !strokes[i].hidden {
      var d := RunStraight(m, labels, k, walk, edges, cuts[i], cuts[i + 1], from, to);
    }
  }

  /** Runs of the walk, begun at the pixel of its first corner, draw it. */
  lemma {:induction false} RunsDraw(m: BlockMap, labels: Labels, k: nat, walk: seq<Rec>, start: Vec,
                                    edges: seq<EdgeRuns.Edge>, strokes: seq<EdgeRuns.Edge>, cuts: seq<nat>)
    requires m.Valid() && labels.Valid() && AlongBorder(m, labels, k, walk) && walk != []
    requires Leads(walk, walk[0].pos, walk[0].pos, m.width, m.height, false)
    requires edges == EdgeRuns.Clicks(AsEdges(walk)) && EdgeRuns.Covers(edges, strokes, cuts, |edges|)
    requires start == Vec((walk[0].pos.x % m.width) * BCLICKS, (-walk[0].pos.y % m.height) * BCLICKS)
    ensures Draws(m, labels, k, walk, start, strokes, cuts)
  {
    hide AlongBorder, Leads, Stroke, PenAt, EdgeRuns.RunAt;
    forall i | 0 <= i < |strokes| ensures Stroke(m, labels, k, walk, cuts[i], cuts[i + 1], strokes[i]) {
      StrokeOf(m, labels, k, walk, edges, strokes, cuts, i, walk[0].pos, walk[0].pos);
    }
    forall i | 0 <= i < |cuts|
      ensures cuts[i] <= |walk| && PenAt(m, start, strokes, i, CornerAfter(walk, cuts[i]))
    {
      PenFollows(m, start, strokes, walk, edges, cuts, i);
    }
  }
}
