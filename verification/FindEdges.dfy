/** poly_findedges: three scans that together trace every border edge exactly once. */
module FindEdges {
  import opened Torus
  import opened Blocks
  import opened Options
  import opened Partition
  import opened Outline
  import opened Trace
  import opened EdgeCover
  import opened Starts

  type PartPolys = seq<seq<seq<Edge>>>

  /** The outlines filed under part k, in the order in which they were traced. */
  ghost function FiledUnder(all: seq<Traced>, k: nat): seq<seq<Edge>> {
    if all == [] then []
    else
      var e := all[|all| - 1];
      FiledUnder(all[..|all| - 1], k) + if e.part == k then [e.poly] else []
  }

  ghost predicate Filed(partpolys: PartPolys, all: seq<Traced>) {
    (forall i :: 0 <= i < |all| ==> all[i].part < |partpolys|) &&
    forall k :: 0 <= k < |partpolys| ==> partpolys[k] == FiledUnder(all, k)
  }

  /** Every border edge that marks a block has been traced. */
  ghost predicate MarkersDone(m: BlockMap, all: seq<Traced>)
    requires m.Valid()
  {
    forall s :: Boundary(m, s) && s.d !in {0, 2, 4} ==> InAll(all, s)
  }

  ghost predicate MarkedAny(m: BlockMap, all: seq<Traced>, p: Vec)
    requires m.Valid()
  {
    exists i :: 0 <= i < |all| && Marked(m, all[i].trail, p)
  }

  ghost predicate SeenBy(m: BlockMap, done: Marks, all: seq<Traced>)
    requires SameSize(m, done)
  {
    forall p :: done.At(p) == if MarkedAny(m, all, p) then Seen else Unseen
  }

  lemma FileOne(partpolys: PartPolys, all: seq<Traced>, e: Traced)
    requires Filed(partpolys, all) && e.part < |partpolys|
    ensures Filed(partpolys[e.part := partpolys[e.part] + [e.poly]], all + [e])
  {
    assert (all + [e])[..|all|] == all;
  }

  /** A new loop that starts off the traced edges can be added to the outlines. */
  lemma AddOutline(m: BlockMap, labels: Labels, seeds: seq<Vec>, all: seq<Traced>, e: Traced)
    requires m.Valid() && labels.Valid() && IsPartition(m, labels, seeds) && Entries(m, labels, all)
    requires Cycle(m, e.trail) && Follows(m, e.poly, e.trail) && Anchored(labels, e.poly) &&
             InPart(labels, e.trail[0], e.part)
    requires !InAll(all, e.trail[0])
    ensures Entries(m, labels, all + [e])
    ensures forall s :: InAll(all, s) || s in e.trail ==> InAll(all + [e], s)
  {
    hide Cycle, Trail, Follows, Anchored, InPart, IsPartition;
    forall i | 0 <= i < |e.trail|
      ensures InPart(labels, e.trail[i], e.part) && !InAll(all, e.trail[i])
    {
      CycleIsTrail(m, e.trail);
      TrailKeepsPart(m, labels, seeds, e.trail, e.part, i);
      if InAll(all, e.trail[i]) { TrailInAll(m, labels, all, e.trail, i, 0); }
    }
    var more := all + [e];
    assert more[|all|] == e;
    forall i | 0 <= i < |more| ensures Entry(m, labels, more[i]) {
      if i < |all| { assert more[i] == all[i]; }
    }
    forall s | InAll(all, s) ensures InAll(more, s) {
      var i :| 0 <= i < |all| && s in all[i].trail;
      assert more[i] == all[i];
    }
  }

  lemma CycleIsTrail(m: BlockMap, t: seq<State>)
    requires m.Valid() && Cycle(m, t)
    ensures Trail(m, t) && |t| > 0
  {}

  lemma SeenGrows(m: BlockMap, before: Marks, after: Marks, all: seq<Traced>, e: Traced)
    requires SameSize(m, before) && SameSize(m, after)
    requires SeenBy(m, before, all) && MarkedBy(m, before, after, e.trail)
    ensures SeenBy(m, after, all + [e])
  {
    var more := all + [e];
    forall p
      ensures MarkedAny(m, more, p) <==> MarkedAny(m, all, p) || Marked(m, e.trail, p)
    {
      if MarkedAny(m, all, p) {
        var i :| 0 <= i < |all| && Marked(m, all[i].trail, p);
        assert more[i] == all[i];
      }
      assert more[|all|] == e;
    }
  }

  lemma MarkedEdge(m: BlockMap, labels: Labels, all: seq<Traced>, c: Vec) returns (s: State)
    requires m.Valid() && labels.Valid() && Entries(m, labels, all) && MarkedAny(m, all, c)
    ensures Boundary(m, s) && InAll(all, s) && MarkedCell(s).Some? && m.Home(MarkedCell(s).value) == m.Home(c)
  {
    hide Boundary, Step, MarkedCell, Follows, Disjoint;
    var i :| 0 <= i < |all| && Marked(m, all[i].trail, c);
    assert Entry(m, labels, all[i]);
    var j :| 0 <= j < |all[i].trail| && MarkedCell(all[i].trail[j]).Some? &&
             m.Home(MarkedCell(all[i].trail[j]).value) == m.Home(c);
    s := all[i].trail[j];
  }

  /** If a block is marked, the outline it would start has been traced. */
  lemma SeenStart(m: BlockMap, labels: Labels, all: seq<Traced>, c: Vec)
    requires m.Valid() && labels.Valid() && Entries(m, labels, all) && m.InRange(c)
    requires StartOf(m, c).Some? && MarkedAny(m, all, c)
    ensures InAll(all, StartState(m, c))
  {
    hide Step, Back, StartOf, StartState, Entries, InAll, MarkedAny, Boundary;
    var s := MarkedEdge(m, labels, all, c);
    StartMarks(m, c);
    AllClosed(m, labels, all, s);
    if s.d % 2 == 1 {
      SlantIsStart(m, s);
      StartHome(m, MarkedCell(s).value, c);
    } else {
      DownNearStart(m, s);
      assert m.Home(s.v) == s.v by { BoundaryHome(m, s); }
      StepForth(m, StartState(m, c));
    }
  }

  lemma BoundaryHome(m: BlockMap, s: State)
    requires m.Valid() && Boundary(m, s)
    ensures m.Home(s.v) == s.v
  {}

  lemma StartHome(m: BlockMap, c: Vec, c': Vec)
    requires m.Valid() && m.Home(c) == m.Home(c')
    ensures StartOf(m, c) == StartOf(m, c')
    ensures StartOf(m, c).Some? ==> StartState(m, c) == StartState(m, c')
  {
    CongruentPlus(c, c', Unit(4), m.width, m.height);
    if StartOf(m, c).Some? {
      CongruentPlus(c, c', StartOf(m, c).value.off, m.width, m.height);
    }
  }

  lemma InAllMarks(m: BlockMap, all: seq<Traced>, s: State, c: Vec)
    requires m.Valid() && InAll(all, s) && MarkedCell(s).Some? && m.Home(MarkedCell(s).value) == m.Home(c)
    ensures MarkedAny(m, all, c)
  {
    var i :| 0 <= i < |all| && s in all[i].trail;
    var j :| 0 <= j < |all[i].trail| && all[i].trail[j] == s;
    assert Marked(m, all[i].trail, c);
  }

  /** An unmarked block's outline has not been traced. */
  lemma UnseenStart(m: BlockMap, all: seq<Traced>, c: Vec)
    requires m.Valid() && StartOf(m, c).Some? && !MarkedAny(m, all, c)
    ensures !InAll(all, StartState(m, c))
  {
    StartMarks(m, c);
    if InAll(all, StartState(m, c)) { InAllMarks(m, all, StartState(m, c), c); }
  }

  /** Once all block starts are traced, so is every slanted or downward edge. */
  lemma StartsCoverMarkers(m: BlockMap, labels: Labels, all: seq<Traced>)
    requires m.Valid() && labels.Valid() && Entries(m, labels, all)
    requires forall p :: m.InRange(p) && StartOf(m, p).Some? ==> InAll(all, StartState(m, p))
    ensures MarkersDone(m, all)
  {
    hide Step, Back, StartOf, StartState, Entries;
    forall s | Boundary(m, s) && s.d !in {0, 2, 4}
      ensures InAll(all, s)
    {
      if s.d % 2 == 1 {
        SlantIsStart(m, s);
        var c := MarkedCell(s).value;
        assert m.Home(m.Home(c)) == m.Home(c);
        StartHome(m, c, m.Home(c));
      } else {
        DownNearStart(m, s);
        AllClosed(m, labels, all, StartState(m, s.v));
        StepForth(m, s);
      }
    }
  }

  /** The label of a wall block, shifted to a corner of the block, is congruent to that corner. */
  lemma LabelledCorner(m: BlockMap, labels: Labels, seeds: seq<Vec>, c: Vec, off: Vec, d: Dir)
    requires m.Valid() && IsPartition(m, labels, seeds) && IsWall(m, c)
    ensures labels.At(c).Some?
    ensures var v := Plus(labels.At(c).value.pos, off);
            m.Home(v) == m.Home(Plus(c, off)) && Borders(m, v, d) == Borders(m, Plus(c, off), d)
  {
    var pos := labels.At(c).value.pos;
    CongruentPlus(pos, c, off, m.width, m.height);
    BordersHome(m, Plus(pos, off), d);
    BordersHome(m, Plus(c, off), d);
  }

  /** A border edge at a corner of block c with c on its left borders the part of c. */
  lemma CornerInPart(m: BlockMap, labels: Labels, c: Vec, v: Vec, d: Dir)
    requires m.Valid() && labels.Valid() && labels.width == m.width && labels.height == m.height
    requires labels.At(c).Some? && SectorCell(v, Turned(d, 1)) == c
    ensures InPart(labels, State(m.Home(v), d), labels.At(c).value.part)
  {
    LabelHome(m, labels, v, Turned(d, 1));
  }

  /** What the first scan knows after the first n blocks. */
  ghost predicate BlocksScanned(m: BlockMap, labels: Labels, partpolys: PartPolys, done: Marks, all: seq<Traced>,
                                n: nat)
    requires m.Valid() && labels.Valid() && n <= m.width * m.height
  {
    && SameSize(m, done) && SeenBy(m, done, all)
    && Filed(partpolys, all) && Entries(m, labels, all)
    && (forall i :: 0 <= i < |all| ==> |all[i].trail| > 0 && all[i].trail[0].d !in {0, 2, 4})
    && forall j :: 0 <= j < n ==> StartDone(m, all, SeqOfCells(m.width, m.height)[j])
  }

  ghost predicate StartDone(m: BlockMap, all: seq<Traced>, c: Vec)
    requires m.Valid()
  {
    StartOf(m, c).Some? ==> InAll(all, StartState(m, c))
  }

  /** The trace started at block c files one new outline under the part of c. */
  lemma BlockTraced(m: BlockMap, labels: Labels, seeds: seq<Vec>, partpolys: PartPolys, done: Marks, done': Marks,
                    all: seq<Traced>, n: nat, e: Traced)
    requires m.Valid() && labels.Valid() && IsPartition(m, labels, seeds) && n < m.width * m.height
    requires BlocksScanned(m, labels, partpolys, done, all, n) && SameSize(m, done')
    requires var c := SeqOfCells(m.width, m.height)[n];
             && StartOf(m, c).Some? && done.At(c) != Seen && labels.At(c).Some? && labels.At(c).value.part == e.part
             && Cycle(m, e.trail) && Follows(m, e.poly, e.trail) && e.trail[0] == StartState(m, c)
             && e.poly != [] && e.poly[0].pos == Plus(labels.At(c).value.pos, StartOf(m, c).value.off)
    requires e.part < |partpolys| && MarkedBy(m, done, done', e.trail)
    ensures BlocksScanned(m, labels, partpolys[e.part := partpolys[e.part] + [e.poly]], done', all + [e], n + 1)
  {
    hide Cycle, Trail, Follows, StartOf, StartState, Entries, MarkedBy, InAll, IsPartition, MarkedAny;
    var c := SeqOfCells(m.width, m.height)[n];
    UnseenStart(m, all, c);
    StartBorders(m, c);
    StartStateIs(m, c);
    StartIsWall(m, c);
    assert AtCorner(labels.At(c).value.pos, e.poly) by { StartCorner(m, c); }
    PartitionSize(m, labels, seeds);
    CornerInPart(m, labels, c, Plus(c, StartOf(m, c).value.off), StartOf(m, c).value.d);
    CycleIsTrail(m, e.trail);
    AddOutline(m, labels, seeds, all, e);
    SeenGrows(m, done, done', all, e);
    FileOne(partpolys, all, e);
  }

  lemma PartitionSize(m: BlockMap, labels: Labels, seeds: seq<Vec>)
    requires m.Valid() && IsPartition(m, labels, seeds)
    ensures labels.Valid() && labels.width == m.width && labels.height == m.height
  {}

  /** A block that starts nothing, or whose outline is marked, needs no trace. */
  lemma BlockSkipped(m: BlockMap, labels: Labels, partpolys: PartPolys, done: Marks, all: seq<Traced>, n: nat)
    requires m.Valid() && labels.Valid() && n < m.width * m.height
    requires BlocksScanned(m, labels, partpolys, done, all, n)
    requires var c := SeqOfCells(m.width, m.height)[n]; StartOf(m, c).None? || done.At(c) == Seen
    ensures BlocksScanned(m, labels, partpolys, done, all, n + 1)
  {
    hide Entries, Filed, StartOf, StartState;
    var c := SeqOfCells(m.width, m.height)[n];
    CellsInRange(m.width, m.height, n);
    if StartOf(m, c).Some? { SeenStart(m, labels, all, c); }
  }

  lemma BlocksScannedAll(m: BlockMap, labels: Labels, partpolys: PartPolys, done: Marks, all: seq<Traced>)
    requires m.Valid() && labels.Valid() && m.width * m.height >= 0
    requires BlocksScanned(m, labels, partpolys, done, all, m.width * m.height)
    ensures SameSize(m, done) && Filed(partpolys, all) && Entries(m, labels, all) && MarkersDone(m, all)
    ensures forall i :: 0 <= i < |all| ==> |all[i].trail| > 0 && all[i].trail[0].d !in {0, 2, 4}
    ensures forall p :: done.At(p) != Risen
  {
    hide Entries, Filed, StartOf, StartState, InAll;
    forall p | m.InRange(p) && StartOf(m, p).Some?
      ensures InAll(all, StartState(m, p))
    {
      CellOfIndex(p, m.width, m.height);
      assert StartDone(m, all, SeqOfCells(m.width, m.height)[ScanIndex(p, m.width)]);
    }
    StartsCoverMarkers(m, labels, all);
  }

  /** The preparations for tracing the outline that block c starts. */
  lemma BlockTraceable(m: BlockMap, labels: Labels, seeds: seq<Vec>, c: Vec)
    requires m.Valid() && labels.Valid() && IsPartition(m, labels, seeds) && StartOf(m, c).Some?
    ensures labels.At(c).Some? && labels.At(c).value.part < |seeds|
    ensures var st := StartOf(m, c).value; var v := Plus(labels.At(c).value.pos, st.off);
            Borders(m, v, st.d) && StartState(m, c) == State(m.Home(v), st.d)
  {
    hide IsPartition, StartOf, Borders;
    var st := StartOf(m, c).value;
    StartIsWall(m, c);
    LabelledCorner(m, labels, seeds, c, st.off, st.d);
    StartBorders(m, c);
    StartStateIs(m, c);
    SoundPart(m, labels, seeds, c);
  }

  /** First scan: outlines started by half blocks and by blocks with an open left side. */
  method ScanBlocks(m: BlockMap, labels: Labels, partcount: nat, ghost seeds: seq<Vec>)
    returns (partpolys: PartPolys, done: Marks, ghost all: seq<Traced>)
    requires m.Valid() && labels.Valid() && IsPartition(m, labels, seeds) && partcount == |seeds|
    ensures |partpolys| == partcount && Filed(partpolys, all)
    ensures Entries(m, labels, all) && MarkersDone(m, all)
    ensures forall i :: 0 <= i < |all| ==> |all[i].trail| > 0 && all[i].trail[0].d !in {0, 2, 4}
    ensures SameSize(m, done) && forall p :: done.At(p) != Risen
  {
    partpolys := seq(partcount, _ => []);
    done := Blank(Unseen, m.width, m.height);
    all := [];
    var cells := SeqOfCells(m.width, m.height);
    for n := 0 to |cells|
      invariant |partpolys| == partcount && SameSize(m, done)
      invariant BlocksScanned(m, labels, partpolys, done, all, n)
    {
      hide BlocksScanned, IsPartition, StartOf, StartState, Follows, Cycle, Trail, MarkedBy, Borders;
      var c := cells[n];
      var start := StartOf(m, c);
      if start.None? || done.At(c) == Seen {
        BlockSkipped(m, labels, partpolys, done, all, n);
        continue;
      }
      BlockTraceable(m, labels, seeds, c);
      var sl := labels.At(c).value;
      ghost var before := done;
      ghost var t;
      var poly;
      poly, done, t := TracePoly(m, Plus(sl.pos, start.value.off), start.value.d, None, done);
      BlockTraced(m, labels, seeds, partpolys, before, done, all, n, Traced(sl.part, poly.value, t));
      partpolys := partpolys[sl.part := partpolys[sl.part] + [poly.value]];
      all := all + [Traced(sl.part, poly.value, t)];
    }
    BlocksScannedAll(m, labels, partpolys, done, all);
  }

  lemma StartIsWall(m: BlockMap, c: Vec)
    requires m.Valid() && StartOf(m, c).Some?
    ensures IsWall(m, c) && StartOf(m, c).value.d !in {0, 2, 4}
  {}

  lemma StartCorner(m: BlockMap, c: Vec)
    requires m.Valid() && StartOf(m, c).Some?
    ensures var off := StartOf(m, c).value.off; 0 <= off.x <= 1 && 0 <= off.y <= 1
  {}

  lemma StartStateIs(m: BlockMap, c: Vec)
    requires m.Valid() && StartOf(m, c).Some?
    ensures StartState(m, c) == State(m.Home(Plus(c, StartOf(m, c).value.off)), StartOf(m, c).value.d)
  {}

  lemma SoundPart(m: BlockMap, labels: Labels, seeds: seq<Vec>, c: Vec)
    requires m.Valid() && IsPartition(m, labels, seeds) && labels.At(c).Some?
    ensures labels.At(c).value.part < |seeds|
  {}
}
