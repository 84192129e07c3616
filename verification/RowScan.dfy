/** Third scan of poly_findedges (outlines that are straight horizontal lines) and the whole procedure. */
module RowScan {
  import opened Torus
  import opened Blocks
  import opened Options
  import opened Partition
  import opened Outline
  import opened Trace
  import opened EdgeCover
  import opened Starts
  import opened FindEdges
  import opened WrapScans

  /** Every border edge that is not horizontal has been traced. */
  ghost predicate TurnsDone(m: BlockMap, all: seq<Traced>)
    requires m.Valid()
  {
    forall s :: Boundary(m, s) && s.d !in {0, 4} ==> InAll(all, s)
  }

  lemma LoopHits(m: BlockMap, labels: Labels, all: seq<Traced>, t: seq<State>, i: nat)
    requires m.Valid() && labels.Valid() && Entries(m, labels, all) && Cycle(m, t) && i < |t| && InAll(all, t[i])
    ensures InAll(all, t[0])
  {
    hide Entries, InAll, Cycle, Trail;
    CycleIsTrail(m, t);
    TrailInAll(m, labels, all, t, i, 0);
  }

  /** On a loop of straight edges in the directions ok, the block at the left of each edge is full. */
  lemma StraightFull(m: BlockMap, t: seq<State>, i: nat)
    requires m.Valid() && Cycle(m, t) && i < |t| && DirsIn(t, {0, 2, 4})
    ensures BlockAt(m, LeftCell(t[i])) == Full
  {
    hide Step, Back, Boundary, BlockAt, LeftCell;
    TrailInRange(m, t, i);
    CycleClosed(m, t, t[i]);
    assert t[i].d in {0, 2, 4};
    if BlockAt(m, LeftCell(t[i])) != Full {
      HalfBlockTurns(m, t[i]);
    }
  }

  /** An upward edge below row 0 is seen by the second scan from the cell at its right. */
  lemma RiseSeen(m: BlockMap, s: State)
    requires m.Valid() && Boundary(m, s) && s.d == 2 && AtMark(m, s.v, 2) && BlockAt(m, LeftCell(s)) == Full
    ensures RiseHere(m, Vec(s.v.x, 0)) && RiseAt(m, Vec(s.v.x, 0)) == s
  {
    hide BlockAt;
    var p := Vec(s.v.x, 0);
    var right := Plus(s.v, Unit(2));
    ModPlus(1, -1, m.height);
    assert right.y % m.height == 0;
    assert Congruent(right, p, m.width, m.height);
    CongruentPlus(right, p, Unit(4), m.width, m.height);
    assert Plus(right, Unit(4)) == LeftCell(s) == Plus(s.v, Unit(3));
    SameBlock(m, right, p);
    SameBlock(m, Plus(right, Unit(4)), Plus(p, Unit(4)));
    assert SectorCell(s.v, 2) == right;
    RiseOf(m, s, p);
  }

  lemma SameBlock(m: BlockMap, p: Vec, q: Vec)
    requires m.Valid() && Congruent(p, q, m.width, m.height)
    ensures BlockAt(m, p) == BlockAt(m, q)
  {}

  /** After the second scan every edge that is not horizontal is traced. */
  lemma RisesCoverTurns(m: BlockMap, labels: Labels, partpolys: PartPolys, done: Marks, all: seq<Traced>)
    requires m.Valid() && labels.Valid() && RisesScanned(m, labels, partpolys, done, all, m.width)
    ensures TurnsDone(m, all)
  {
    hide Entries, Filed, InAll, RisenTraced, RiseKinds, RiseHere, RiseAt, Boundary, Cycle, AtMark;
    forall s | Boundary(m, s) && s.d !in {0, 4}
      ensures InAll(all, s)
    {
      if s.d == 2 { RiseCovered(m, labels, all, s); }
    }
  }

  lemma RiseCovered(m: BlockMap, labels: Labels, all: seq<Traced>, s: State)
    requires m.Valid() && labels.Valid() && Entries(m, labels, all) && MarkersDone(m, all) && RisesDone(m, all, m.width)
    requires Boundary(m, s) && s.d == 2
    ensures InAll(all, s)
  {
    hide Entries, InAll, RiseHere, RiseAt, Boundary, Trail, AtMark, BlockAt, LeftCell, Step;
    var t := LoopOf(m, s);
    CycleIsTrail(m, t);
    if !DirsIn(t, {0, 2, 4}) {
      var j :| 0 <= j < |t| && t[j].d !in {0, 2, 4};
      TrailInRange(m, t, j);
      LoopHits(m, labels, all, t, j);
    } else {
      var i := PassesMark(m, t, 2);
      TrailInRange(m, t, i);
      StraightFull(m, t, i);
      RiseSeen(m, t[i]);
      assert RiseDone(m, all, t[i].v.x);
      LoopHits(m, labels, all, t, i);
    }
  }

  // ---- third scan: horizontal lines ----

  /** Corner offset of the line started at a block of column 0: along its top or its bottom. */
  function RowOff(d: Dir): Vec { if d == 4 then Vec(1, 0) else Vec(0, 1) }

  /** Block (0, y) is full and open above (direction 4) or below (direction 0). */
  predicate RowHere(m: BlockMap, y: int, d: Dir)
    requires m.Valid()
  {
    var loc := Vec(0, y);
    BlockAt(m, loc) == Full &&
    if d == 4 then
      var b := BlockAt(m, Plus(loc, Unit(2))); b != Full && b != DownLeft && b != DownRight
    else
      var b := BlockAt(m, Plus(loc, Unit(6))); b != Full && b != UpRight && b != UpLeft
  }

  function RowAt(m: BlockMap, y: int, d: Dir): State
    requires m.Valid()
  {
    State(m.Home(Plus(Vec(0, y), RowOff(d))), d)
  }

  lemma RowBorders(m: BlockMap, y: int, d: Dir)
    requires m.Valid() && RowHere(m, y, d) && d in {0, 4}
    ensures var v := Plus(Vec(0, y), RowOff(d));
            Borders(m, v, d) && Boundary(m, RowAt(m, y, d)) && SectorCell(v, Turned(d, 1)) == Vec(0, y)
    ensures IsWall(m, Vec(0, y))
  {
    var v := Plus(Vec(0, y), RowOff(d));
    BordersHome(m, v, d);
    if d == 4 {
      assert SectorCell(v, 5) == Vec(0, y) && SectorCell(v, 4) == Plus(Vec(0, y), Unit(2));
    } else {
      assert SectorCell(v, 1) == Vec(0, y) && SectorCell(v, 0) == Plus(Vec(0, y), Unit(6));
    }
  }

  /** The row of the block above or below which a horizontal edge runs. */
  function RowOf(m: BlockMap, s: State): int
    requires m.Valid()
  {
    if s.d == 4 then s.v.y else (s.v.y - 1) % m.height
  }

  lemma RowOfStart(m: BlockMap, y: int, d: Dir)
    requires m.Valid() && 0 <= y < m.height && d in {0, 4}
    ensures RowOf(m, RowAt(m, y, d)) == y
  {
    var h := m.height;
    if y + 1 == h { ModUnique(h, h, 1, 0); ModUnique(-1, h, -1, h - 1); } else { ModUnique(y + 1, h, 0, y + 1); }
    ModUnique(y, h, 0, y);
  }

  ghost predicate HasTurn(t: seq<State>) {
    exists j :: 0 <= j < |t| && t[j].d !in {0, 4}
  }

  /** A horizontal line that lies in a row already scanned. */
  ghost predicate RowLoop(m: BlockMap, t: seq<State>, d: Dir, limit: int)
    requires m.Valid()
  {
    DirsIn(t, {d}) && forall j :: 0 <= j < |t| ==> RowOf(m, t[j]) < limit
  }

  ghost predicate RowKinds(m: BlockMap, all: seq<Traced>, n4: int, n0: int)
    requires m.Valid()
  {
    forall i :: 0 <= i < |all| ==>
      HasTurn(all[i].trail) || RowLoop(m, all[i].trail, 4, n4) || RowLoop(m, all[i].trail, 0, n0)
  }

  ghost predicate RowsDone(m: BlockMap, all: seq<Traced>, d: Dir, n: int)
    requires m.Valid()
  {
    forall y :: 0 <= y < n ==> RowDone(m, all, y, d)
  }

  ghost predicate RowDone(m: BlockMap, all: seq<Traced>, y: int, d: Dir)
    requires m.Valid()
  {
    RowHere(m, y, d) ==> InAll(all, RowAt(m, y, d))
  }

  ghost predicate RowsScanned(m: BlockMap, labels: Labels, partpolys: PartPolys, all: seq<Traced>, n4: int, n0: int)
    requires m.Valid() && labels.Valid()
  {
    && Filed(partpolys, all) && Entries(m, labels, all) && TurnsDone(m, all)
    && RowKinds(m, all, n4, n0) && RowsDone(m, all, 4, n4) && RowsDone(m, all, 0, n0)
  }

  lemma {:induction false} SameRow(m: BlockMap, t: seq<State>, d: Dir, i: nat)
    requires m.Valid() && Trail(m, t) && DirsIn(t, {d}) && d in {0, 4} && i < |t|
    ensures RowOf(m, t[i]) == RowOf(m, t[0])
  {
    hide Step;
    if i > 0 {
      SameRow(m, t, d, i - 1);
      assert t[i - 1].d in {d} && t[i].d in {d} && t[0].d in {d};
      StraightMove(m, t[i - 1]);
    }
  }

  /** A loop of horizontal edges in a row not yet scanned is new. */
  lemma RowFresh(m: BlockMap, labels: Labels, all: seq<Traced>, t: seq<State>, y: int, d: Dir, n4: int, n0: int)
    requires m.Valid() && labels.Valid() && Entries(m, labels, all) && RowKinds(m, all, n4, n0)
    requires d in {0, 4} && 0 <= y < m.height && y == (if d == 4 then n4 else n0)
    requires Cycle(m, t) && DirsIn(t, {d}) && t[0] == RowAt(m, y, d)
    ensures !InAll(all, t[0])
  {
    hide Step, Follows, Disjoint, Boundary, Trail, RowAt;
    CycleIsTrail(m, t);
    RowOfStart(m, y, d);
    forall i | 0 <= i < |all|
      ensures t[0] !in all[i].trail
    {
      assert Entry(m, labels, all[i]);
      RowApart(m, t, all[i].trail, d, n4, n0);
    }
  }

  lemma RowApart(m: BlockMap, t: seq<State>, u: seq<State>, d: Dir, n4: int, n0: int)
    requires m.Valid() && Cycle(m, t) && Cycle(m, u) && DirsIn(t, {d})
    requires d in {0, 4} && RowOf(m, t[0]) == (if d == 4 then n4 else n0)
    requires HasTurn(u) || RowLoop(m, u, 4, n4) || RowLoop(m, u, 0, n0)
    ensures t[0] !in u
  {
    hide Step, Boundary;
    assert t[0].d in {d};
    if HasTurn(u) {
      var j :| 0 <= j < |u| && u[j].d !in {0, 4};
      if t[0] in u {
        var k :| 0 <= k < |u| && u[k] == t[0];
        TrailInLoop(m, u, t, k, j);
      }
    }
  }

  lemma RowsDoneGrow(m: BlockMap, all: seq<Traced>, all': seq<Traced>, d: Dir, n: int)
    requires m.Valid() && RowsDone(m, all, d, n)
    requires forall s :: InAll(all, s) ==> InAll(all', s)
    ensures RowsDone(m, all', d, n)
  {
    hide InAll, RowHere, RowAt;
    forall y | 0 <= y < n ensures RowDone(m, all', y, d) { assert RowDone(m, all, y, d); }
  }

  lemma RowsDoneNext(m: BlockMap, all: seq<Traced>, d: Dir, n: int)
    requires m.Valid() && RowsDone(m, all, d, n) && RowDone(m, all, n, d)
    ensures RowsDone(m, all, d, n + 1)
  {
    hide RowDone;
  }

  lemma RowKindsGrow(m: BlockMap, all: seq<Traced>, e: Traced, d: Dir, n4: int, n0: int)
    requires m.Valid() && RowKinds(m, all, n4, n0) && d in {0, 4}
    requires RowLoop(m, e.trail, d, if d == 4 then n4 + 1 else n0 + 1)
    ensures RowKinds(m, all + [e], if d == 4 then n4 + 1 else n4, if d == 0 then n0 + 1 else n0)
  {
    hide RowOf;
    forall i | 0 <= i < |all|
      ensures HasTurn(all[i].trail) || RowLoop(m, all[i].trail, 4, n4 + 1) || RowLoop(m, all[i].trail, 0, n0)
      ensures HasTurn(all[i].trail) || RowLoop(m, all[i].trail, 4, n4) || RowLoop(m, all[i].trail, 0, n0 + 1)
    {}
  }

  lemma RowKindsRelax(m: BlockMap, all: seq<Traced>, n4: int, n0: int)
    requires m.Valid() && RowKinds(m, all, n4, n0)
    ensures RowKinds(m, all, n4 + 1, n0) && RowKinds(m, all, n4, n0 + 1)
  {
    hide RowOf;
    forall i | 0 <= i < |all|
      ensures HasTurn(all[i].trail) || RowLoop(m, all[i].trail, 4, n4 + 1) || RowLoop(m, all[i].trail, 0, n0)
      ensures HasTurn(all[i].trail) || RowLoop(m, all[i].trail, 4, n4) || RowLoop(m, all[i].trail, 0, n0 + 1)
    {}
  }

  lemma TurnsGrow(m: BlockMap, all: seq<Traced>, all': seq<Traced>)
    requires m.Valid() && TurnsDone(m, all) && forall s :: InAll(all, s) ==> InAll(all', s)
    ensures TurnsDone(m, all')
  {
    hide InAll, Boundary;
  }

  /** The line found at row y becomes a new outline. */
  lemma RowAdded(m: BlockMap, labels: Labels, seeds: seq<Vec>, all: seq<Traced>, y: int, d: Dir, n4: int, n0: int,
                 e: Traced)
    requires m.Valid() && labels.Valid() && IsPartition(m, labels, seeds)
    requires Entries(m, labels, all) && RowKinds(m, all, n4, n0)
    requires d in {0, 4} && 0 <= y < m.height && y == (if d == 4 then n4 else n0) && RowHere(m, y, d)
    requires labels.At(Vec(0, y)).Some? && labels.At(Vec(0, y)).value.part == e.part
    requires AtCorner(labels.At(Vec(0, y)).value.pos, e.poly)
    requires Cycle(m, e.trail) && Follows(m, e.poly, e.trail) && DirsIn(e.trail, {d}) && e.trail[0] == RowAt(m, y, d)
    ensures Entries(m, labels, all + [e]) && RowLoop(m, e.trail, d, y + 1)
    ensures forall s :: InAll(all, s) || s in e.trail ==> InAll(all + [e], s)
  {
    hide Follows, Entries, InAll, IsPartition, Trail, RowKinds, InPart, LeftCell, SectorCell, RowHere, Cycle, RowOf;
    hide Borders, Boundary;
    RowBorders(m, y, d);
    PartitionSize(m, labels, seeds);
    CornerInPart(m, labels, Vec(0, y), Plus(Vec(0, y), RowOff(d)), d);
    RowFresh(m, labels, all, e.trail, y, d, n4, n0);
    AddOutline(m, labels, seeds, all, e);
    CycleIsTrail(m, e.trail);
    RowOfStart(m, y, d);
    forall i | 0 <= i < |e.trail| ensures RowOf(m, e.trail[i]) < y + 1 { SameRow(m, e.trail, d, i); }
  }

  /** A refused trace turned off the horizontal, so its outline is already there. */
  lemma RowRefused(m: BlockMap, labels: Labels, all: seq<Traced>, t: seq<State>, d: Dir)
    requires m.Valid() && labels.Valid() && Entries(m, labels, all) && TurnsDone(m, all)
    requires Trail(m, t) && DirsIn(t, {d}) && d in {0, 4} && Step(m, t[|t| - 1]).d != d
    ensures InAll(all, t[0])
  {
    hide Follows, Entries, InAll, Boundary, Step, Back;
    var last := t[|t| - 1];
    assert last.d in {d};
    TrailInRange(m, t, |t| - 1);
    StepForth(m, last);
    StepNoReversal(m, last);
    AllClosed(m, labels, all, Step(m, last));
    TrailInAll(m, labels, all, t, |t| - 1, 0);
  }

  lemma RowTraceable(m: BlockMap, labels: Labels, seeds: seq<Vec>, y: int, d: Dir)
    requires m.Valid() && labels.Valid() && IsPartition(m, labels, seeds) && RowHere(m, y, d) && d in {0, 4}
    ensures var l := labels.At(Vec(0, y));
            l.Some? && l.value.part < |seeds| && Borders(m, Plus(l.value.pos, RowOff(d)), d) &&
            RowAt(m, y, d) == State(m.Home(Plus(l.value.pos, RowOff(d))), d)
  {
    hide IsPartition, Borders;
    RowBorders(m, y, d);
    LabelledCorner(m, labels, seeds, Vec(0, y), RowOff(d), d);
    SoundPart(m, labels, seeds, Vec(0, y));
  }

  /** One of the two checks of the third scan at block (0, y). */
  method ScanRow(m: BlockMap, labels: Labels, partpolys0: PartPolys, done0: Marks, y: nat, d: Dir,
                 ghost all0: seq<Traced>, ghost seeds: seq<Vec>)
    returns (partpolys: PartPolys, done: Marks, ghost all: seq<Traced>)
    requires m.Valid() && labels.Valid() && IsPartition(m, labels, seeds) && |partpolys0| == |seeds|
    requires SameSize(m, done0) && y < m.height && d in {0, 4}
    requires RowsScanned(m, labels, partpolys0, all0, if d == 4 then y else y + 1, y)
    ensures |partpolys| == |seeds| && SameSize(m, done)
    ensures RowsScanned(m, labels, partpolys, all, y + 1, if d == 4 then y else y + 1)
  {
    hide IsPartition, RowHere, RowAt, Follows, Cycle, Borders, Step, Filed, Entries, RowKinds, RowsDone, TurnsDone;
    hide InAll, Trail, RisenBy;
    partpolys, done, all := partpolys0, done0, all0;
    ghost var n4 := if d == 4 then y else y + 1;
    if !RowHere(m, y, d) {
      RowKindsRelax(m, all, n4, y);
      RowsDoneNext(m, all, d, y);
      return;
    }
    RowTraceable(m, labels, seeds, y, d);
    var sl := labels.At(Vec(0, y)).value;
    ghost var t;
    var poly;
    poly, done, t := TracePoly(m, Plus(sl.pos, RowOff(d)), d, Some({d}), done);
    if poly.None? {
      RowRefused(m, labels, all, t, d);
      RowKindsRelax(m, all, n4, y);
      RowsDoneNext(m, all, d, y);
      return;
    }
    ghost var e := Traced(sl.part, poly.value, t);
    RowAdded(m, labels, seeds, all, y, d, n4, y, e);
    RowKindsGrow(m, all, e, d, n4, y);
    RowsDoneGrow(m, all, all + [e], 4, n4);
    RowsDoneGrow(m, all, all + [e], 0, y);
    assert t[0] in t;
    RowsDoneNext(m, all + [e], d, y);
    TurnsGrow(m, all, all + [e]);
    FileOne(partpolys, all, e);
    partpolys := partpolys[sl.part := partpolys[sl.part] + [poly.value]];
    all := all + [e];
  }

  lemma AboveGeometry(m: BlockMap, v: Vec)
    requires m.Valid() && m.InRange(v) && v.x == 1 % m.width
    ensures var loc, left := Vec(0, v.y), Plus(v, Unit(4));
            Congruent(left, loc, m.width, m.height) && m.Home(Plus(loc, RowOff(4))) == v
  {
    var loc, left := Vec(0, v.y), Plus(v, Unit(4));
    ModPlus(1, -1, m.width);
    ModUnique(v.y, m.height, 0, v.y);
    ModUnique(0, m.width, 0, 0);
    CongruentPlus(left, loc, RowOff(4), m.width, m.height);
    assert Plus(left, RowOff(4)) == v && m.Home(v) == v;
  }

  lemma RowSeenAbove(m: BlockMap, s: State)
    requires m.Valid() && Boundary(m, s) && s.d == 4 && AtMark(m, s.v, 4) && BlockAt(m, LeftCell(s)) == Full
    ensures RowHere(m, s.v.y, 4) && RowAt(m, s.v.y, 4) == s
  {
    hide BlockAt, Wrap;
    var loc, left := Vec(0, s.v.y), Plus(s.v, Unit(4));
    AboveGeometry(m, s.v);
    SameBlock(m, left, loc);
    CongruentPlus(left, loc, Unit(2), m.width, m.height);
    SameBlock(m, Plus(left, Unit(2)), Plus(loc, Unit(2)));
    assert SectorCell(s.v, 4) == Plus(left, Unit(2)) && LeftCell(s) == left;
  }

  lemma RowSeenBelow(m: BlockMap, s: State)
    requires m.Valid() && Boundary(m, s) && s.d == 0 && AtMark(m, s.v, 0) && BlockAt(m, LeftCell(s)) == Full
    ensures var y := (s.v.y - 1) % m.height; RowHere(m, y, 0) && RowAt(m, y, 0) == s
  {
    hide BlockAt;
    var loc, above := Vec(0, (s.v.y - 1) % m.height), Plus(s.v, Unit(2));
    assert m.Home(s.v) == s.v;
    ModPlus(s.v.y - 1, 0, m.height);
    assert Congruent(above, loc, m.width, m.height);
    SameBlock(m, above, loc);
    CongruentPlus(above, loc, Unit(6), m.width, m.height);
    assert Plus(above, Unit(6)) == s.v == Plus(above, RowOff(0));
    SameBlock(m, s.v, Plus(loc, Unit(6)));
    assert SectorCell(s.v, 0) == s.v && LeftCell(s) == above;
  }

  /** A horizontal edge at column 0 is seen by the third scan. */
  lemma RowSeen(m: BlockMap, s: State)
    requires m.Valid() && Boundary(m, s) && s.d in {0, 4} && AtMark(m, s.v, s.d) && BlockAt(m, LeftCell(s)) == Full
    ensures var y := RowOf(m, s); 0 <= y < m.height && RowHere(m, y, s.d) && RowAt(m, y, s.d) == s
  {
    hide BlockAt, LeftCell, AtMark, RowHere, RowAt;
    if s.d == 4 { RowSeenAbove(m, s); } else { RowSeenBelow(m, s); }
  }

  lemma FirstTurn(m: BlockMap, t: seq<State>, d: Dir) returns (i: nat)
    requires m.Valid() && Trail(m, t) && d in {0, 4} && t[0].d == d && !DirsIn(t, {d})
    ensures i < |t| && t[i].d !in {0, 4}
  {
    hide Step, Boundary;
    var j :| 0 <= j < |t| && t[j].d !in {d};
    i := 0;
    while t[i].d == d
      invariant i <= j && (t[i].d == d || t[i].d !in {0, 4})
      decreases j - i
    {
      StepNoReversal(m, t[i]);
      i := i + 1;
    }
  }

  lemma RowCovered(m: BlockMap, labels: Labels, all: seq<Traced>, s: State)
    requires m.Valid() && labels.Valid() && Entries(m, labels, all) && TurnsDone(m, all)
    requires RowsDone(m, all, 4, m.height) && RowsDone(m, all, 0, m.height)
    requires Boundary(m, s) && s.d in {0, 4}
    ensures InAll(all, s)
  {
    hide Entries, InAll, Boundary, Trail, AtMark, BlockAt, LeftCell, Step, RowHere, RowAt, RowOf, Cycle;
    var t := LoopOf(m, s);
    CycleIsTrail(m, t);
    if !DirsIn(t, {s.d}) {
      var i := FirstTurn(m, t, s.d);
      TrailInRange(m, t, i);
      LoopHits(m, labels, all, t, i);
    } else {
      forall j | 0 <= j < |t| ensures t[j].d == s.d { assert t[j].d in {s.d}; }
      var i := PassesMark(m, t, s.d);
      TrailInRange(m, t, i);
      StraightFull(m, t, i);
      RowSeen(m, t[i]);
      assert RowDone(m, all, RowOf(m, t[i]), s.d);
      LoopHits(m, labels, all, t, i);
    }
  }

  // ---- the whole procedure ----

  /** Every border edge of the map lies on an outline. */
  ghost predicate AllTraced(m: BlockMap, all: seq<Traced>)
    requires m.Valid()
  {
    forall s :: Boundary(m, s) ==> InAll(all, s)
  }

  lemma RowsCoverAll(m: BlockMap, labels: Labels, partpolys: PartPolys, all: seq<Traced>)
    requires m.Valid() && labels.Valid() && RowsScanned(m, labels, partpolys, all, m.height, m.height)
    ensures AllTraced(m, all)
  {
    hide Entries, Filed, InAll, Boundary, RowKinds, RowsDone;
    forall s | Boundary(m, s)
      ensures InAll(all, s)
    {
      if s.d in {0, 4} { RowCovered(m, labels, all, s); }
    }
  }

  lemma RisesStart(m: BlockMap, labels: Labels, partpolys: PartPolys, done: Marks, all: seq<Traced>)
    requires m.Valid() && labels.Valid() && Filed(partpolys, all) && Entries(m, labels, all) && MarkersDone(m, all)
    requires forall i :: 0 <= i < |all| ==> |all[i].trail| > 0 && all[i].trail[0].d !in {0, 2, 4}
    requires SameSize(m, done) && forall p :: done.At(p) != Risen
    ensures RisesScanned(m, labels, partpolys, done, all, 0)
  {}

  lemma RowsStart(m: BlockMap, labels: Labels, partpolys: PartPolys, done: Marks, all: seq<Traced>)
    requires m.Valid() && labels.Valid() && RisesScanned(m, labels, partpolys, done, all, m.width)
    ensures RowsScanned(m, labels, partpolys, all, 0, 0)
  {
    hide Entries, Filed, InAll, Boundary, RisenTraced, RisesDone, MarkersDone;
    RisesCoverTurns(m, labels, partpolys, done, all);
    forall i | 0 <= i < |all|
      ensures HasTurn(all[i].trail)
    {
      assert RiseKind(m, done, all[i].trail);
    }
  }

  /** poly_findedges: each part's outlines; together they hold every border edge exactly once. */
  method PolyFindEdges(m: BlockMap, labels: Labels, partcount: nat, ghost seeds: seq<Vec>)
    returns (partpolys: PartPolys, ghost all: seq<Traced>)
    requires m.Valid() && labels.Valid() && IsPartition(m, labels, seeds) && partcount == |seeds|
    ensures |partpolys| == partcount && Filed(partpolys, all)
    ensures Entries(m, labels, all) && AllTraced(m, all)
  {
    hide IsPartition, Entries, Filed, MarkersDone, RisesScanned, AllTraced;
    var done;
    partpolys, done, all := ScanBlocks(m, labels, partcount, seeds);
    RisesStart(m, labels, partpolys, done, all);
    partpolys, done, all := ScanRises(m, labels, partpolys, done, all, seeds);
    RowsStart(m, labels, partpolys, done, all);
    for y := 0 to m.height
      invariant |partpolys| == partcount && SameSize(m, done)
      invariant RowsScanned(m, labels, partpolys, all, y, y)
    {
      hide RowsScanned;
      partpolys, done, all := ScanRow(m, labels, partpolys, done, y, 4, all, seeds);
      partpolys, done, all := ScanRow(m, labels, partpolys, done, y, 0, all, seeds);
    }
    RowsCoverAll(m, labels, partpolys, all);
  }

  /** Edge s is followed at place j of outline i. */
  ghost predicate TracedAt(all: seq<Traced>, i: int, j: int, s: State) {
    0 <= i < |all| && 0 <= j < |all[i].trail| && all[i].trail[j] == s
  }

  lemma TracedAtOnce(m: BlockMap, labels: Labels, all: seq<Traced>, s: State, i: int, j: int, k: int, l: int)
    requires m.Valid() && labels.Valid() && Entries(m, labels, all)
    requires TracedAt(all, i, j, s) && TracedAt(all, k, l, s)
    ensures i == k && j == l
  {
    hide Step, Boundary, Follows, InPart;
    assert Entry(m, labels, all[i]);
    assert s in all[i].trail && s in all[k].trail;
  }

  /** Each border edge of the map is followed at exactly one place of exactly one outline. */
  lemma EdgeTracedOnce(m: BlockMap, labels: Labels, all: seq<Traced>, s: State)
    requires m.Valid() && labels.Valid() && Entries(m, labels, all) && AllTraced(m, all) && Boundary(m, s)
    ensures exists i, j :: TracedAt(all, i, j, s) && forall k, l :: TracedAt(all, k, l, s) ==> k == i && l == j
  {
    hide Entries, Boundary;
    assert InAll(all, s);
    var i :| 0 <= i < |all| && s in all[i].trail;
    var j :| 0 <= j < |all[i].trail| && all[i].trail[j] == s;
    assert TracedAt(all, i, j, s);
    forall k, l | TracedAt(all, k, l, s) ensures k == i && l == j {
      TracedAtOnce(m, labels, all, s, i, j, k, l);
    }
  }

  /** An outline ends where it began, up to whole map widths and heights. */
  lemma OutlineCloses(m: BlockMap, labels: Labels, e: Traced)
    requires m.Valid() && labels.Valid() && Entry(m, labels, e)
    ensures var last := e.poly[|e.poly| - 1];
            Congruent(Plus(last.pos, last.off), e.poly[0].pos, m.width, m.height)
  {
    hide InPart;
    var n := |e.trail|;
    var last := e.poly[n - 1];
    assert m.Home(last.pos) == e.trail[n - 1].v && last.off == Unit(e.trail[n - 1].d);
    WrapPlus(last.pos, last.off, m.width, m.height);
    assert m.Home(e.poly[0].pos) == e.trail[0].v;
  }
}
