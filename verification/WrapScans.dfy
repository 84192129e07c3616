/** The last two scans of poly_findedges: outlines that wrap around the map without slanted or downward edges. */
module WrapScans {
  import opened Torus
  import opened Blocks
  import opened Options
  import opened Partition
  import opened Outline
  import opened Trace
  import opened EdgeCover
  import opened FindEdges

  // ---- second scan: upward edges crossing row 0 ----

  /** The upward edge along the left side of cell p. */
  function RiseAt(m: BlockMap, p: Vec): State
    requires m.Valid()
  {
    State(m.Home(Plus(p, Unit(6))), 2)
  }

  /** Cell p is open on its left side, where a full block lies. */
  predicate RiseHere(m: BlockMap, p: Vec)
    requires m.Valid()
  {
    var b := BlockAt(m, p);
    b != Full && b != DownLeft && b != UpLeft && BlockAt(m, Plus(p, Unit(4))) == Full
  }

  lemma RiseBorders(m: BlockMap, p: Vec)
    requires m.Valid() && RiseHere(m, p)
    ensures Borders(m, Plus(Plus(p, Unit(4)), Vec(1, 1)), 2) && Boundary(m, RiseAt(m, p))
    ensures Plus(Plus(p, Unit(4)), Vec(1, 1)) == Plus(p, Unit(6))
    ensures SectorCell(Plus(p, Unit(6)), 3) == Plus(p, Unit(4)) && IsWall(m, Plus(p, Unit(4)))
  {
    var v := Plus(p, Unit(6));
    assert SectorCell(v, 3) == Plus(p, Unit(4)) && SectorCell(v, 2) == p;
    BordersHome(m, v, 2);
  }

  lemma RiseOf(m: BlockMap, s: State, p: Vec)
    requires m.Valid() && m.InRange(s.v) && s.d == 2 && m.Home(Plus(s.v, Unit(2))) == m.Home(p)
    ensures RiseAt(m, p) == s
  {
    var q := Plus(s.v, Unit(2));
    CongruentPlus(q, p, Unit(6), m.width, m.height);
    assert Plus(q, Unit(6)) == s.v;
    assert m.Home(s.v) == s.v;
  }

  lemma RiseCell(m: BlockMap, p: Vec)
    requires m.Valid()
    ensures m.Home(Plus(RiseAt(m, p).v, Unit(2))) == m.Home(p)
  {
    WrapPlus(Plus(p, Unit(6)), Unit(2), m.width, m.height);
    assert Plus(Plus(p, Unit(6)), Unit(2)) == p;
  }

  /** A loop of the first scan, or one of the second scan whose upward edges are all marked. */
  ghost predicate RiseKind(m: BlockMap, done: Marks, t: seq<State>)
    requires SameSize(m, done)
  {
    |t| > 0 &&
    (t[0].d !in {0, 2, 4} ||
     (t[0].d == 2 && forall j :: 0 <= j < |t| && t[j].d == 2 ==> done.At(Plus(t[j].v, Unit(2))) == Risen))
  }

  ghost predicate RiseKinds(m: BlockMap, done: Marks, all: seq<Traced>)
    requires SameSize(m, done)
  {
    forall i :: 0 <= i < |all| ==> RiseKind(m, done, all[i].trail)
  }

  ghost predicate RisenTraced(m: BlockMap, done: Marks, all: seq<Traced>)
    requires SameSize(m, done)
  {
    forall p {:trigger done.At(p)} :: done.At(p) == Risen && Boundary(m, RiseAt(m, p)) ==> InAll(all, RiseAt(m, p))
  }

  ghost predicate RisesScanned(m: BlockMap, labels: Labels, partpolys: PartPolys, done: Marks, all: seq<Traced>, n: nat)
    requires m.Valid() && labels.Valid()
  {
    && SameSize(m, done) && Filed(partpolys, all) && Entries(m, labels, all) && MarkersDone(m, all)
    && RisenTraced(m, done, all)
    && RiseKinds(m, done, all)
    && RisesDone(m, all, n)
  }

  ghost predicate RisesDone(m: BlockMap, all: seq<Traced>, n: nat)
    requires m.Valid()
  {
    forall x :: 0 <= x < n ==> RiseDone(m, all, x)
  }

  lemma RisesDoneGrow(m: BlockMap, all: seq<Traced>, all': seq<Traced>, n: nat)
    requires m.Valid() && RisesDone(m, all, n)
    requires forall s :: InAll(all, s) ==> InAll(all', s)
    requires RiseDone(m, all', n)
    ensures RisesDone(m, all', n + 1)
  {
    hide InAll, RiseHere, RiseAt;
    forall x | 0 <= x < n ensures RiseDone(m, all', x) { assert RiseDone(m, all, x); }
  }

  ghost predicate RiseDone(m: BlockMap, all: seq<Traced>, x: int)
    requires m.Valid()
  {
    RiseHere(m, Vec(x, 0)) ==> InAll(all, RiseAt(m, Vec(x, 0)))
  }

  /** A loop of only 0, 2 and 4 edges whose first upward edge is unmarked is new. */
  lemma RiseFresh(m: BlockMap, labels: Labels, done: Marks, all: seq<Traced>, t: seq<State>, p: Vec)
    requires m.Valid() && labels.Valid() && Entries(m, labels, all) && SameSize(m, done)
    requires RiseKinds(m, done, all)
    requires Cycle(m, t) && DirsIn(t, {0, 2, 4}) && t[0] == RiseAt(m, p) && done.At(p) != Risen
    ensures !InAll(all, t[0])
  {
    hide Step, Follows, Disjoint, Boundary;
    RiseCell(m, p);
    forall i | 0 <= i < |all|
      ensures t[0] !in all[i].trail
    {
      var u := all[i].trail;
      assert Entry(m, labels, all[i]) && RiseKind(m, done, u);
      if t[0] in u {
        assert done.At(Plus(t[0].v, Unit(2))) == done.At(p);
        var j :| 0 <= j < |u| && u[j] == t[0];
        TrailInLoop(m, u, t, j, 0);
      }
    }
  }

  lemma RisenKeeps(m: BlockMap, done: Marks, done': Marks, p: Vec, t: seq<State>)
    requires SameSize(m, done) && SameSize(m, done') && |t| > 0
    requires RisenBy(m, done.Set(p, Risen), done', t[1..]) && t[0] == RiseAt(m, p)
    ensures forall q :: done.At(q) == Risen ==> done'.At(q) == Risen
    ensures forall j :: 0 <= j < |t| && t[j].d == 2 ==> done'.At(Plus(t[j].v, Unit(2))) == Risen
    ensures forall q :: done'.At(q) == Risen ==> done.At(q) == Risen || m.Home(q) == m.Home(p) || Rises(m, t[1..], q)
  {
    RiseCell(m, p);
    forall j | 0 <= j < |t| && t[j].d == 2
      ensures done'.At(Plus(t[j].v, Unit(2))) == Risen
    {
      var q := Plus(t[j].v, Unit(2));
      if j > 0 {
        assert t[1..][j - 1] == t[j];
        assert Rises(m, t[1..], q);
      } else {
        assert done.Set(p, Risen).At(q) == Risen;
      }
    }
  }

  lemma RisesFound(m: BlockMap, t: seq<State>, q: Vec)
    requires m.Valid() && Trail(m, t) && Rises(m, t[1..], q)
    ensures RiseAt(m, q) in t
  {
    hide Step, Boundary, RiseAt;
    var i :| 0 <= i < |t[1..]| && t[1..][i].d == 2 && m.Home(Plus(t[1..][i].v, Unit(2))) == m.Home(q);
    assert t[1..][i] == t[i + 1];
    TrailInRange(m, t, i + 1);
    RiseOf(m, t[i + 1], q);
  }

  lemma RiseHome(m: BlockMap, p: Vec, q: Vec)
    requires m.Valid() && m.Home(p) == m.Home(q)
    ensures RiseAt(m, p) == RiseAt(m, q)
  {
    CongruentPlus(q, p, Unit(6), m.width, m.height);
  }

  lemma RisenTracedGrows(m: BlockMap, done: Marks, done': Marks, p: Vec, t: seq<State>, all: seq<Traced>,
                         all': seq<Traced>)
    requires SameSize(m, done) && SameSize(m, done') && Trail(m, t) && |t| > 0
    requires RisenBy(m, done.Set(p, Risen), done', t[1..]) && t[0] == RiseAt(m, p)
    requires RisenTraced(m, done, all)
    requires forall s :: InAll(all, s) || s in t ==> InAll(all', s)
    ensures RisenTraced(m, done', all')
  {
    hide Step, Boundary, RisenBy, InAll, Trail, RiseAt, Rises;
    RisenKeeps(m, done, done', p, t);
    forall q {:trigger done'.At(q)} | done'.At(q) == Risen && Boundary(m, RiseAt(m, q))
      ensures InAll(all', RiseAt(m, q))
    {
      if done.At(q) == Risen {
      } else if m.Home(q) == m.Home(p) {
        RiseHome(m, p, q);
        assert t[0] in t;
      } else {
        RisesFound(m, t, q);
      }
    }
  }

  lemma TrailInRange(m: BlockMap, t: seq<State>, i: nat)
    requires m.Valid() && Trail(m, t) && i < |t|
    ensures m.InRange(t[i].v) && Boundary(m, t[i])
  {}

  lemma RiseKindsGrow(m: BlockMap, done: Marks, done': Marks, all: seq<Traced>)
    requires SameSize(m, done) && SameSize(m, done')
    requires RiseKinds(m, done, all)
    requires forall q :: done.At(q) == Risen ==> done'.At(q) == Risen
    ensures RiseKinds(m, done', all)
  {
    forall i | 0 <= i < |all| ensures RiseKind(m, done', all[i].trail) {
      assert RiseKind(m, done, all[i].trail);
    }
  }

  lemma RiseKindAdded(m: BlockMap, done: Marks, all: seq<Traced>, e: Traced)
    requires SameSize(m, done) && RiseKinds(m, done, all) && RiseKind(m, done, e.trail)
    ensures RiseKinds(m, done, all + [e])
  {}

  lemma MarkersGrow(m: BlockMap, all: seq<Traced>, all': seq<Traced>)
    requires m.Valid() && MarkersDone(m, all) && forall s :: InAll(all, s) ==> InAll(all', s)
    ensures MarkersDone(m, all')
  {}

  /** What a successful trace from cell p of row 0 delivers. */
  ghost predicate RiseLoop(m: BlockMap, labels: Labels, done: Marks, done': Marks, p: Vec, e: Traced)
    requires m.Valid() && labels.Valid() && SameSize(m, done) && SameSize(m, done')
  {
    && RiseHere(m, p) && done.At(p) != Risen && e.trail != [] && e.trail[0] == RiseAt(m, p)
    && labels.At(Plus(p, Unit(4))).Some? && labels.At(Plus(p, Unit(4))).value.part == e.part
    && RisenBy(m, done.Set(p, Risen), done', e.trail[1..])
    && Cycle(m, e.trail) && Follows(m, e.poly, e.trail) && DirsIn(e.trail, {0, 2, 4})
    && AtCorner(labels.At(Plus(p, Unit(4))).value.pos, e.poly)
  }

  lemma RiseAdded(m: BlockMap, labels: Labels, seeds: seq<Vec>, done: Marks, done': Marks, all: seq<Traced>, p: Vec,
                  e: Traced)
    requires m.Valid() && labels.Valid() && IsPartition(m, labels, seeds) && SameSize(m, done) && SameSize(m, done')
    requires Entries(m, labels, all) && RiseKinds(m, done, all) && RiseLoop(m, labels, done, done', p, e)
    ensures Entries(m, labels, all + [e])
    ensures forall s :: InAll(all, s) || s in e.trail ==> InAll(all + [e], s)
  {
    hide Follows, Entries, RisenBy, InAll, IsPartition, Cycle, DirsIn, RiseAt, RiseKinds, InPart, LeftCell, SectorCell;
    hide RiseHere;
    RiseBorders(m, p);
    PartitionSize(m, labels, seeds);
    RiseAtIs(m, p);
    CornerInPart(m, labels, Plus(p, Unit(4)), Plus(p, Unit(6)), 2);
    RiseFresh(m, labels, done, all, e.trail, p);
    AddOutline(m, labels, seeds, all, e);
  }

  lemma RiseMarked(m: BlockMap, labels: Labels, done: Marks, done': Marks, all: seq<Traced>, p: Vec, e: Traced)
    requires m.Valid() && labels.Valid() && SameSize(m, done) && SameSize(m, done')
    requires RiseKinds(m, done, all) && RisenTraced(m, done, all) && RiseLoop(m, labels, done, done', p, e)
    requires forall s :: InAll(all, s) || s in e.trail ==> InAll(all + [e], s)
    ensures RiseKinds(m, done', all + [e]) && RisenTraced(m, done', all + [e])
  {
    hide Follows, RisenBy, InAll, DirsIn, RiseKinds, RiseHere, Rises, Step, Boundary, RisenTraced, RiseAt;
    CycleIsTrail(m, e.trail);
    RisenTracedGrows(m, done, done', p, e.trail, all, all + [e]);
    RisenKeeps(m, done, done', p, e.trail);
    RiseKindsGrow(m, done, done', all);
    RiseAtIs(m, p);
    RiseKindAdded(m, done', all, e);
  }

  lemma RiseTraced(m: BlockMap, labels: Labels, seeds: seq<Vec>, partpolys: PartPolys, done: Marks, done': Marks,
                   all: seq<Traced>, n: nat, e: Traced)
    requires m.Valid() && labels.Valid() && IsPartition(m, labels, seeds)
    requires RisesScanned(m, labels, partpolys, done, all, n) && SameSize(m, done')
    requires RiseLoop(m, labels, done, done', Vec(n, 0), e) && e.part < |partpolys|
    ensures RisesScanned(m, labels, partpolys[e.part := partpolys[e.part] + [e.poly]], done', all + [e], n + 1)
  {
    hide Follows, RiseHere, Entries, Filed, RisenBy, InAll, IsPartition, RisenTraced, Cycle, MarkersDone, DirsIn;
    hide RiseKinds, RiseAt, RisesDone;
    RiseAdded(m, labels, seeds, done, done', all, Vec(n, 0), e);
    RiseMarked(m, labels, done, done', all, Vec(n, 0), e);
    FileOne(partpolys, all, e);
    MarkersGrow(m, all, all + [e]);
    assert e.trail[0] in e.trail;
    RisesDoneGrow(m, all, all + [e], n);
  }

  lemma RiseAtIs(m: BlockMap, p: Vec)
    requires m.Valid()
    ensures RiseAt(m, p) == State(m.Home(Plus(p, Unit(6))), 2)
  {}

  /** A refused trace leads to an outline that is already there. */
  lemma RiseRefused(m: BlockMap, labels: Labels, partpolys: PartPolys, done: Marks, done': Marks,
                    all: seq<Traced>, n: nat, t: seq<State>)
    requires m.Valid() && labels.Valid()
    requires RisesScanned(m, labels, partpolys, done, all, n) && SameSize(m, done')
    requires Trail(m, t) && t[0] == RiseAt(m, Vec(n, 0)) && Step(m, t[|t| - 1]).d !in {0, 2, 4}
    requires RisenBy(m, done.Set(Vec(n, 0), Risen), done', t[1..])
    ensures RisesScanned(m, labels, partpolys, done', all, n + 1)
  {
    hide Follows, RiseHere, Entries, Filed, RisenBy, InAll, RisenTraced, Boundary, Step, Back, RiseKinds, Rises;
    var last := t[|t| - 1];
    TrailInRange(m, t, |t| - 1);
    StepForth(m, last);
    AllClosed(m, labels, all, Step(m, last));
    forall s | s in t
      ensures InAll(all, s)
    {
      var i :| 0 <= i < |t| && t[i] == s;
      TrailInAll(m, labels, all, t, |t| - 1, i);
    }
    RisenTracedGrows(m, done, done', Vec(n, 0), t, all, all);
    RisenKeeps(m, done, done', Vec(n, 0), t);
    RiseKindsGrow(m, done, done', all);
    assert t[0] in t;
    RisesDoneGrow(m, all, all, n);
  }

  lemma RiseSkipped(m: BlockMap, labels: Labels, partpolys: PartPolys, done: Marks, all: seq<Traced>, n: nat)
    requires m.Valid() && labels.Valid()
    requires RisesScanned(m, labels, partpolys, done, all, n)
    requires !RiseHere(m, Vec(n, 0)) || done.At(Vec(n, 0)) == Risen
    ensures RisesScanned(m, labels, partpolys, done, all, n + 1)
  {
    hide RiseHere, Entries, Filed, InAll, Boundary;
    if RiseHere(m, Vec(n, 0)) { RiseBorders(m, Vec(n, 0)); }
    RisesDoneGrow(m, all, all, n);
  }

  lemma RiseTraceable(m: BlockMap, labels: Labels, seeds: seq<Vec>, p: Vec)
    requires m.Valid() && labels.Valid() && IsPartition(m, labels, seeds) && RiseHere(m, p)
    ensures var l := labels.At(Plus(p, Unit(4)));
            l.Some? && l.value.part < |seeds| && Borders(m, Plus(l.value.pos, Vec(1, 1)), 2) &&
            RiseAt(m, p) == State(m.Home(Plus(l.value.pos, Vec(1, 1))), 2)
  {
    hide IsPartition, Borders;
    RiseBorders(m, p);
    LabelledCorner(m, labels, seeds, Plus(p, Unit(4)), Vec(1, 1), 2);
    SoundPart(m, labels, seeds, Plus(p, Unit(4)));
  }

  /** The check of the second scan at cell (x, 0). */
  method ScanRise(m: BlockMap, labels: Labels, partpolys0: PartPolys, done0: Marks, x: nat, ghost all0: seq<Traced>,
                  ghost seeds: seq<Vec>)
    returns (partpolys: PartPolys, done: Marks, ghost all: seq<Traced>)
    requires m.Valid() && labels.Valid() && IsPartition(m, labels, seeds) && |partpolys0| == |seeds| &&
             SameSize(m, done0)
    requires RisesScanned(m, labels, partpolys0, done0, all0, x)
    ensures |partpolys| == |seeds| && SameSize(m, done)
    ensures RisesScanned(m, labels, partpolys, done, all, x + 1)
  {
    hide RisesScanned, IsPartition, RiseHere, RiseAt, Follows, Cycle, Trail, RisenBy, Borders, Step, DirsIn, RiseLoop;
    partpolys, done, all := partpolys0, done0, all0;
    var loc := Vec(x, 0);
    if !RiseHere(m, loc) || done.At(loc) == Risen {
      RiseSkipped(m, labels, partpolys, done, all, x);
      return;
    }
    RiseTraceable(m, labels, seeds, loc);
    var sl := labels.At(Plus(loc, Unit(4))).value;
    done := done.Set(loc, Risen);
    ghost var t;
    var poly;
    poly, done, t := TracePoly(m, Plus(sl.pos, Vec(1, 1)), 2, Some({0, 2, 4}), done);
    if poly.Some? {
      ghost var e := Traced(sl.part, poly.value, t);
      RiseDelivered(m, labels, done0, done, loc, e);
      RiseTraced(m, labels, seeds, partpolys, done0, done, all, x, e);
      partpolys := partpolys[sl.part := partpolys[sl.part] + [poly.value]];
      all := all + [e];
    } else {
      RiseRefused(m, labels, partpolys, done0, done, all, x, t);
    }
  }

  lemma RiseDelivered(m: BlockMap, labels: Labels, done: Marks, done': Marks, p: Vec, e: Traced)
    requires m.Valid() && labels.Valid() && SameSize(m, done) && SameSize(m, done') && labels.At(Plus(p, Unit(4))).Some?
    requires RiseHere(m, p) && done.At(p) != Risen && labels.At(Plus(p, Unit(4))).value.part == e.part
    requires e.trail != [] && e.trail[0] == RiseAt(m, p) && RisenBy(m, done.Set(p, Risen), done', e.trail[1..])
    requires Cycle(m, e.trail) && Follows(m, e.poly, e.trail) && DirsIn(e.trail, {0, 2, 4})
    requires e.poly != [] && e.poly[0].pos == Plus(labels.At(Plus(p, Unit(4))).value.pos, Vec(1, 1))
    ensures RiseLoop(m, labels, done, done', p, e)
  {
    hide RisenBy, Cycle, Follows, DirsIn, RiseHere, RiseAt;
  }

  method ScanRises(m: BlockMap, labels: Labels, partpolys0: PartPolys, done0: Marks, ghost all0: seq<Traced>,
                   ghost seeds: seq<Vec>)
    returns (partpolys: PartPolys, done: Marks, ghost all: seq<Traced>)
    requires m.Valid() && labels.Valid() && IsPartition(m, labels, seeds) && |partpolys0| == |seeds|
    requires RisesScanned(m, labels, partpolys0, done0, all0, 0)
    ensures |partpolys| == |seeds| && SameSize(m, done)
    ensures RisesScanned(m, labels, partpolys, done, all, m.width)
  {
    partpolys, done, all := partpolys0, done0, all0;
    for x := 0 to m.width
      invariant |partpolys| == |seeds| && SameSize(m, done)
      invariant RisesScanned(m, labels, partpolys, done, all, x)
    {
      hide RisesScanned, IsPartition;
      partpolys, done, all := ScanRise(m, labels, partpolys, done, x, all, seeds);
    }
  }
}
