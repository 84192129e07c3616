/** Facts about whole borders: they are closed loops, they keep their part, they partition the edges. */
module EdgeCover {
  import opened Torus
  import opened Blocks
  import opened Partition
  import opened Outline
  import opened Trace

  /** A finished outline: the part it was filed under, its records and the edges followed. */
  datatype Traced = Traced(part: nat, poly: seq<Edge>, trail: seq<State>)

  /** The block on the solid side of an edge. */
  function LeftCell(s: State): Vec {
    SectorCell(s.v, Turned(s.d, 1))
  }

  ghost predicate InPart(labels: Labels, s: State, k: nat)
    requires labels.Valid()
  {
    var l := labels.At(LeftCell(s)); l.Some? && l.value.part == k
  }

  /** The outline starts at a corner of a block that was reached at pos. */
  ghost predicate AtCorner(pos: Vec, poly: seq<Edge>) {
    poly != [] && var d := Minus(poly[0].pos, pos); 0 <= d.x <= 1 && 0 <= d.y <= 1
  }

  ghost predicate Anchored(labels: Labels, poly: seq<Edge>)
    requires labels.Valid()
  {
    exists c :: labels.At(c).Some? && AtCorner(labels.At(c).value.pos, poly)
  }

  ghost predicate Entry(m: BlockMap, labels: Labels, e: Traced)
    requires m.Valid() && labels.Valid()
  {
    Cycle(m, e.trail) && Follows(m, e.poly, e.trail) && Anchored(labels, e.poly) &&
    forall i :: 0 <= i < |e.trail| ==> InPart(labels, e.trail[i], e.part)
  }

  ghost predicate InAll(all: seq<Traced>, s: State) {
    exists i :: 0 <= i < |all| && s in all[i].trail
  }

  ghost predicate Disjoint(all: seq<Traced>) {
    forall i, j, s :: 0 <= i < j < |all| && s in all[i].trail ==> s !in all[j].trail
  }

  /** Correct, pairwise disjoint outlines. */
  ghost predicate Entries(m: BlockMap, labels: Labels, all: seq<Traced>)
    requires m.Valid() && labels.Valid()
  {
    (forall i :: 0 <= i < |all| ==> Entry(m, labels, all[i])) && Disjoint(all)
  }

  lemma CycleClosed(m: BlockMap, t: seq<State>, s: State)
    requires m.Valid() && Cycle(m, t) && s in t
    ensures Step(m, s) in t && Back(m, s) in t
  {
    var i :| 0 <= i < |t| && t[i] == s;
    if i + 1 < |t| { assert t[i + 1] == Step(m, s); }
    if i > 0 {
      StepForth(m, t[i - 1]);
      assert t[i - 1] in t;
    } else {
      StepForth(m, t[|t| - 1]);
    }
  }

  lemma AllClosed(m: BlockMap, labels: Labels, all: seq<Traced>, s: State)
    requires m.Valid() && labels.Valid() && Entries(m, labels, all) && InAll(all, s)
    ensures InAll(all, Step(m, s)) && InAll(all, Back(m, s))
  {
    var i :| 0 <= i < |all| && s in all[i].trail;
    CycleClosed(m, all[i].trail, s);
  }

  /** A trail that shares an edge with a loop runs inside the loop. */
  lemma {:induction false} TrailInLoop(m: BlockMap, t: seq<State>, u: seq<State>, i: nat, j: nat)
    requires m.Valid() && Trail(m, t) && Cycle(m, u) && i < |t| && j < |t| && t[i] in u
    ensures t[j] in u
    decreases if i <= j then j - i else i - j
  {
    hide Step, Back, Boundary;
    CycleClosed(m, u, t[i]);
    if i < j {
      TrailInLoop(m, t, u, i + 1, j);
    } else if j < i {
      StepForth(m, t[i - 1]);
      TrailInLoop(m, t, u, i - 1, j);
    }
  }

  /** A trail with one edge already among the outlines lies there altogether. */
  lemma TrailInAll(m: BlockMap, labels: Labels, all: seq<Traced>, t: seq<State>, i: nat, j: nat)
    requires m.Valid() && labels.Valid() && Entries(m, labels, all) && Trail(m, t)
    requires i < |t| && j < |t| && InAll(all, t[i])
    ensures InAll(all, t[j])
  {
    var k :| 0 <= k < |all| && t[i] in all[k].trail;
    assert Entry(m, labels, all[k]);
    TrailInLoop(m, t, all[k].trail, i, j);
  }

  /** Solid sectors next to each other around a corner belong to one part. */
  lemma SectorsJoin(m: BlockMap, labels: Labels, seeds: seq<Vec>, v: Vec, d: Dir)
    requires m.Valid() && IsPartition(m, labels, seeds)
    requires Solid(m, v, d) && Solid(m, v, Turned(d, 1))
    ensures var a, b := labels.At(SectorCell(v, d)), labels.At(SectorCell(v, Turned(d, 1)));
            a.Some? && b.Some? && a.value.part == b.value.part
  {
    hide IsPartition;
    var c := SectorCell(v, d);
    TurnedWhole(d);
    SolidLabelled(m, labels, seeds, v, d);
    if d == 0 {
      assert SectorCell(v, 1) == Plus(c, Unit(2));
      JoinedSamePart(m, labels, seeds, c, 2);
    } else if d == 2 {
      assert SectorCell(v, 3) == Plus(c, Unit(4));
      JoinedSamePart(m, labels, seeds, c, 4);
    } else if d == 4 {
      assert SectorCell(v, 5) == Plus(c, Unit(6));
      JoinedSamePart(m, labels, seeds, c, 6);
    } else if d == 6 {
      assert SectorCell(v, 7) == Plus(c, Unit(0));
      JoinedSamePart(m, labels, seeds, c, 0);
    } else {
      assert SectorCell(v, Turned(d, 1)) == c;
    }
  }

  /** k solid sectors in a row starting at sector e belong to one part. */
  lemma {:induction false} RunJoins(m: BlockMap, labels: Labels, seeds: seq<Vec>, v: Vec, e: Dir, k: nat)
    requires m.Valid() && IsPartition(m, labels, seeds) && k <= 7
    requires forall i {:trigger Turned(e, i)} :: 0 <= i <= k ==> Solid(m, v, Turned(e, i))
    ensures var a, b := labels.At(SectorCell(v, e)), labels.At(SectorCell(v, Turned(e, k)));
            a.Some? && b.Some? && a.value.part == b.value.part
  {
    if k == 0 {
      SolidLabelled(m, labels, seeds, v, e);
    } else {
      hide Solid, IsPartition, SectorCell;
      RunJoins(m, labels, seeds, v, e, k - 1);
      assert Solid(m, v, Turned(e, k - 1)) && Solid(m, v, Turned(e, k));
      TurnedTwice(e, k - 1, 1);
      SectorsJoin(m, labels, seeds, v, Turned(e, k - 1));
    }
  }

  lemma SolidLabelled(m: BlockMap, labels: Labels, seeds: seq<Vec>, v: Vec, e: Dir)
    requires m.Valid() && IsPartition(m, labels, seeds) && Solid(m, v, Turned(e, 0))
    ensures labels.Valid() && Turned(e, 0) == e && labels.At(SectorCell(v, e)).Some?
  {
    hide Sound, Spread, Stepped, Closed, SeedsFirst;
    assert IsWall(m, SectorCell(v, e));
  }

  lemma LeftCellAhead(m: BlockMap, s: State)
    requires m.Valid()
    ensures SectorCell(Plus(s.v, Unit(s.d)), Turned(s.d, 4)) == LeftCell(s)
  {}

  lemma LabelHome(m: BlockMap, labels: Labels, v: Vec, d: Dir)
    requires m.Valid() && labels.Valid() && labels.width == m.width && labels.height == m.height
    ensures labels.At(SectorCell(m.Home(v), d)) == labels.At(SectorCell(v, d))
  {
    var off := Minus(SectorCell(v, d), v);
    assert SectorCell(v, d) == Plus(v, off);
    assert SectorCell(m.Home(v), d) == Plus(m.Home(v), off);
    WrapPlus(v, off, m.width, m.height);
    AtHome(labels, Plus(v, off));
    AtHome(labels, Plus(m.Home(v), off));
  }

  /** Around corner w, the solid run between arrival and departure belongs to one part. */
  lemma TurnKeepsPart(m: BlockMap, labels: Labels, seeds: seq<Vec>, w: Vec, d: Dir)
    requires m.Valid() && IsPartition(m, labels, seeds)
    requires Solid(m, w, Turned(d, 4)) && !Solid(m, w, Turned(d, 5))
    ensures var e := NextDir(Sectors(m, w), d);
            var a, b := labels.At(SectorCell(w, Turned(e, 1))), labels.At(SectorCell(w, Turned(d, 4)));
            a.Some? && b.Some? && a.value.part == b.value.part
  {
    hide NextDir, Solid, IsPartition, Turned, SectorCell, Sectors;
    var r := Sectors(m, w);
    var n: int := TurnSolid(r, d);
    var e := Turned(d, 4 - n);
    forall i {:trigger Turned(e, i)} | 0 <= i <= n
      ensures Solid(m, w, Turned(e, i))
    {
      TurnedTwice(d, 4 - n, i);
      assert r[Turned(d, 4 - n + i)];
    }
    RunJoins(m, labels, seeds, w, e, n);
    TurnedTwice(d, 4 - n, n);
    TurnedTwice(d, 3 - n, 1);
  }

  /** The next edge borders the same part. */
  lemma StepKeepsPart(m: BlockMap, labels: Labels, seeds: seq<Vec>, s: State, k: nat)
    requires m.Valid() && IsPartition(m, labels, seeds) && Boundary(m, s) && InPart(labels, s, k)
    ensures InPart(labels, Step(m, s), k)
  {
    var v := Plus(s.v, Unit(s.d));
    EdgeSides(m, s.v, s.d);
    SolidHome(m, v, Turned(s.d, 4));
    SolidHome(m, v, Turned(s.d, 5));
    LeftCellAhead(m, s);
    LabelHome(m, labels, v, Turned(s.d, 4));
    TurnKeepsPart(m, labels, seeds, m.Home(v), s.d);
  }

  lemma {:induction false} TrailKeepsPart(m: BlockMap, labels: Labels, seeds: seq<Vec>, t: seq<State>, k: nat, n: nat)
    requires m.Valid() && IsPartition(m, labels, seeds) && Trail(m, t) && InPart(labels, t[0], k) && n < |t|
    ensures InPart(labels, t[n], k)
  {
    if n > 0 {
      TrailKeepsPart(m, labels, seeds, t, k, n - 1);
      StepKeepsPart(m, labels, seeds, t[n - 1], k);
    }
  }

  /** Every border edge lies on a closed loop. */
  lemma {:induction false} GrowLoop(m: BlockMap, t: seq<State>) returns (u: seq<State>)
    requires m.Valid() && Trail(m, t)
    ensures Cycle(m, u) && u[0] == t[0]
    decreases AllStates(m) - Members(t)
  {
    var s := Step(m, t[|t| - 1]);
    if s == t[0] {
      u := t;
    } else {
      TrailGrows(m, t);
      TrailBounded(m, t, s);
      u := GrowLoop(m, t + [s]);
    }
  }

  lemma LoopOf(m: BlockMap, s: State) returns (t: seq<State>)
    requires m.Valid() && Boundary(m, s)
    ensures Cycle(m, t) && t[0] == s
  {
    t := GrowLoop(m, [s]);
  }

  /** A cyclic sequence of numbers that never rises cannot fall. */
  lemma {:induction false} NoFall(a: seq<int>, n: nat)
    requires n < |a| && forall i :: 0 <= i < |a| - 1 ==> a[i + 1] <= a[i]
    ensures n > 0 ==> a[n] <= a[1]
  {
    if n > 1 { NoFall(a, n - 1); }
  }
}
