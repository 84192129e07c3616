/** From a map to its printed polygons: the merged outlines, turned to a bend, with runs of parallel edges joined. */
module PrintMap {
  import opened Options
  import opened Torus
  import opened Blocks
  import opened Partition
  import opened Outline
  import opened Trace
  import opened EdgeCover
  import opened FindEdges
  import RowScan
  import opened Tour
  import opened PolyLink
  import opened Conversion
  import opened Borderless
  import opened Bends
  import opened VisibleRecs
  import opened MakePolys
  import opened RecordWalks
  import opened Strokes
  import EdgeRuns

  /** A polygon element of the map file, in pixels. */
  datatype Polygon = Polygon(start: Vec, offsets: seq<EdgeRuns.Offset>)

  /** A bend of the records is one of the list to be printed. */
  lemma {:induction false} BendOf(recs: seq<Rec>) returns (bend: nat)
    requires Bent(recs)
    ensures bend < |recs| && EdgeRuns.Bends(AsEdges(recs), bend)
  {
    hide Parallel;
    if HasTurn(recs) {
      bend :| 0 < bend < |recs| && !Parallel(recs[bend - 1].off, recs[bend].off);
    } else {
      bend := 0;
    }
  }

  /** Where the list starts after k turns. */
  function FirstPlace(n: nat, k: nat): nat
    requires k < n
  {
    if k == 0 then 0 else n - k
  }

  function StartPixel(m: BlockMap, pos: Vec): Vec
    requires m.width > 0 && m.height > 0
  {
    Vec((pos.x % m.width) * EdgeRuns.BCLICKS, (-pos.y % m.height) * EdgeRuns.BCLICKS)
  }

  /** The records from the k-th last on, without those that lead nowhere. */
  function WalkFrom(recs: seq<Rec>, k: nat): seq<Rec>
    requires k <= |recs|
  {
    MovingRecs(TurnedRecs(recs, k))
  }

  /** The records show the border of part k, each edge once and nothing else. */
  ghost predicate ShowsPart(m: BlockMap, labels: Labels, k: nat, recs: seq<Rec>)
    requires m.Valid() && labels.Valid()
  {
    forall s :: Shown(recs, s, m.width, m.height) == if Boundary(m, s) && InPart(labels, s, k) then 1 else 0
  }

  /** The strokes are the maximal runs of a walk that begins at a bend; they draw it, and it shows the part. */
  ghost predicate PrintedWalk(m: BlockMap, labels: Labels, k: nat, walk: seq<Rec>, poly: Polygon, cuts: seq<nat>)
    requires m.Valid() && labels.Valid()
  {
    var edges, strokes := EdgeRuns.Clicks(AsEdges(walk)), EdgeRuns.Understood(poly.offsets);
    edges != [] && EdgeRuns.Bends(edges, 0) && EdgeRuns.Covers(edges, strokes, cuts, |edges|) &&
    Draws(m, labels, k, walk, poly.start, strokes, cuts) && ShowsPart(m, labels, k, walk)
  }

  /** And the polygon starts on the map and closes. */
  ghost predicate Printed(m: BlockMap, labels: Labels, k: nat, recs: seq<Rec>, poly: Polygon)
    requires m.Valid() && labels.Valid()
  {
    0 <= poly.start.x < EdgeRuns.BCLICKS * m.width && 0 <= poly.start.y < EdgeRuns.BCLICKS * m.height &&
    EdgeRuns.Total(EdgeRuns.Understood(poly.offsets)) == Vec(0, 0) &&
    exists j: nat, cuts: seq<nat> :: j < |recs| && PrintedWalk(m, labels, k, WalkFrom(recs, j), poly, cuts)
  }

  /** What a merged outline without gap to the outside offers to be printed. */
  ghost predicate Printable(m: BlockMap, labels: Labels, k: nat, recs: seq<Rec>)
    requires m.Valid() && labels.Valid()
  {
    recs != [] && OffsetSum(recs) == Vec(0, 0) && Bent(recs) && AlongBorder(m, labels, k, recs) &&
    Leads(recs, recs[0].pos, recs[0].pos, m.width, m.height, false) && ShowsPart(m, labels, k, recs)
  }

  lemma {:induction false} BorderUnits(m: BlockMap, labels: Labels, k: nat, recs: seq<Rec>)
    requires m.Valid() && labels.Valid() && AlongBorder(m, labels, k, recs)
    ensures UnitRecs(recs)
  {
    forall t | 0 <= t < |recs| && !recs[t].hidden ensures IsUnit(recs[t].off) {
      var d := RecDir(m, labels, k, recs, t);
    }
  }

  /** Begun elsewhere and without idle records it shows the same. */
  lemma {:induction false} WalkShows(m: BlockMap, labels: Labels, k: nat, recs: seq<Rec>, j: nat)
    requires m.Valid() && labels.Valid() && Printable(m, labels, k, recs) && j <= |recs|
    ensures ShowsPart(m, labels, k, WalkFrom(recs, j)) && AlongBorder(m, labels, k, WalkFrom(recs, j))
  {
    hide AlongBorder, UnitRecs, Shown, Boundary, InPart, Bent, OffsetSum, Leads;
    BorderUnits(m, labels, k, recs);
    TurnedUnits(recs, j);
    MovingUnits(TurnedRecs(recs, j));
    forall s
      ensures Shown(WalkFrom(recs, j), s, m.width, m.height) ==
              if Boundary(m, s) && InPart(labels, s, k) then 1 else 0
    {
      TurnedShown(recs, j, s, m.width, m.height);
      MovingShown(TurnedRecs(recs, j), s, m.width, m.height);
    }
    WalkAlong(m, labels, k, WalkFrom(recs, j));
  }

  lemma {:induction false} WalkAlong(m: BlockMap, labels: Labels, k: nat, walk: seq<Rec>)
    requires m.Valid() && labels.Valid() && UnitRecs(walk) && ShowsPart(m, labels, k, walk)
    ensures AlongBorder(m, labels, k, walk)
  {
    hide UnitRecs, Shown, Boundary, InPart, OnBorder;
    VisibleOnBorder(m, labels, k, walk);
  }

  /** And leads from its first record back to it. */
  lemma {:induction false} WalkLeads(m: BlockMap, labels: Labels, k: nat, recs: seq<Rec>, j: nat)
    requires m.Valid() && labels.Valid() && Printable(m, labels, k, recs) && j < |recs|
    requires TurnedRecs(recs, j)[0].off != Vec(0, 0)
    ensures var walk := WalkFrom(recs, j);
            && walk != [] && Leads(walk, walk[0].pos, walk[0].pos, m.width, m.height, false)
            && walk[0] == recs[FirstPlace(|recs|, j)]
  {
    hide AlongBorder, ShowsPart, Bent, OffsetSum, Leads;
    var turned := TurnedRecs(recs, j);
    TurnedLeads(recs, recs[0].pos, j, m.width, m.height);
    MovingLeads(turned, turned[0].pos, turned[0].pos, m.width, m.height);
    MovingFirst(turned);
  }

  lemma {:induction false} WalkEdges(recs: seq<Rec>, j: nat)
    requires j <= |recs|
    ensures EdgeRuns.Prepared(AsEdges(recs), j) == EdgeRuns.Clicks(AsEdges(WalkFrom(recs, j)))
  {
    hide EdgeRuns.Moving, EdgeRuns.Turned, MovingRecs, TurnedRecs;
    TurnedEdges(recs, j);
    MovingEdges(TurnedRecs(recs, j));
  }

  lemma StartOnMap(m: BlockMap, pos: Vec)
    requires m.width > 0 && m.height > 0
    ensures var s := StartPixel(m, pos);
            0 <= s.x < EdgeRuns.BCLICKS * m.width && 0 <= s.y < EdgeRuns.BCLICKS * m.height
  {
    StartMod((pos.x % m.width) * EdgeRuns.BCLICKS, pos.x, m.width);
    StartMod((-pos.y % m.height) * EdgeRuns.BCLICKS, -pos.y, m.height);
  }

  /** The printed runs of such an outline draw it. */
  lemma {:induction false} WalkPrinted(m: BlockMap, labels: Labels, k: nat, recs: seq<Rec>, j: nat, poly: Polygon,
                                       cuts: seq<nat>)
    requires m.Valid() && labels.Valid() && Printable(m, labels, k, recs) && j < |recs|
    requires var edges := EdgeRuns.Prepared(AsEdges(recs), j);
             edges != [] && EdgeRuns.Bends(edges, 0) &&
             EdgeRuns.Covers(edges, EdgeRuns.Understood(poly.offsets), cuts, |edges|)
    requires EdgeRuns.Turned(AsEdges(recs), j)[0].off != Vec(0, 0)
    requires poly.start == StartPixel(m, recs[FirstPlace(|recs|, j)].pos)
    ensures PrintedWalk(m, labels, k, WalkFrom(recs, j), poly, cuts)
  {
    hide Printable, AlongBorder, ShowsPart, Leads, Draws, WalkFrom, EdgeRuns.Understood, EdgeRuns.Covers;
    hide EdgeRuns.Bends, EdgeRuns.Prepared;
    TurnedEdges(recs, j);
    WalkEdges(recs, j);
    WalkShows(m, labels, k, recs, j);
    WalkLeads(m, labels, k, recs, j);
    var walk := WalkFrom(recs, j);
    RunsDraw(m, labels, k, walk, poly.start, EdgeRuns.Clicks(AsEdges(walk)), EdgeRuns.Understood(poly.offsets), cuts);
  }

  method PrintPart(m: BlockMap, ghost labels: Labels, ghost k: nat, recs: seq<Rec>) returns (poly: Polygon)
    requires m.Valid() && labels.Valid() && Printable(m, labels, k, recs)
    ensures Printed(m, labels, k, recs, poly)
  {
    hide Bent, OffsetSum, AlongBorder, ShowsPart, Leads, PrintedWalk, StartPixel, WalkFrom;
    hide EdgeRuns.Total, EdgeRuns.Understood, EdgeRuns.Covers, EdgeRuns.Prepared, EdgeRuns.Bends, EdgeRuns.Turned;
    ghost var bend := BendOf(recs);
    EdgesTotal(recs);
    var j: nat;
    var out: seq<EdgeRuns.Offset>;
    ghost var cuts: seq<nat>;
    out, j, cuts := EdgeRuns.PrintPolygon(AsEdges(recs), bend);
    poly := Polygon(StartPixel(m, recs[FirstPlace(|recs|, j)].pos), out);
    StartOnMap(m, recs[FirstPlace(|recs|, j)].pos);
    WalkPrinted(m, labels, k, recs, j, poly, cuts);
  }

  /** The polygon of a part, unless the part has none or would first have to be cut open. */
  ghost predicate PolygonOf(m: BlockMap, labels: Labels, k: nat, res: Merged, poly: Option<Polygon>)
    requires m.Valid() && labels.Valid()
  {
    match res
    case Merged(recs, extrawrap) =>
      if extrawrap then poly.None? else poly.Some? && Printed(m, labels, k, recs, poly.value)
    case _ => poly.None?
  }

  lemma {:induction false} DonePrintable(m: BlockMap, labels: Labels, k: nat, polys: seq<seq<Edge>>, res: Merged)
    requires m.Valid() && labels.Valid() && PartDone(m, labels, k, polys, res) && res.Merged?
    ensures Printable(m, labels, k, res.recs)
  {
    hide Bent, OffsetSum, Leads, OnBorder, Shown, IsBadMix, OfSign, AllFull, Toured;
  }

  lemma {:induction false} DoneAt(m: BlockMap, labels: Labels, seeds: seq<Vec>, all: seq<Traced>, partpolys: PartPolys,
                                  polys: seq<Merged>, k: nat)
    requires m.Valid() && PartsDone(m, labels, seeds, all, partpolys, polys) && k < |polys|
    ensures labels.Valid() && (polys[k].Merged? ==> Printable(m, labels, k, polys[k].recs))
  {
    hide PartDone, Printable, IsPartition, Entries, RowScan.AllTraced, Filed;
    if polys[k].Merged? {
      DonePrintable(m, labels, k, partpolys[k], polys[k]);
    }
  }

  /** Every part with an outer outline, or between two wrapping ones, is printed as a polygon that draws its border. */
  method PrintPolygons(m: BlockMap) returns (out: seq<Option<Polygon>>)
    requires m.Valid() && Mappable(m)
    ensures exists labels, seeds, all, partpolys, polys ::
              PartsDone(m, labels, seeds, all, partpolys, polys) && |out| == |polys| &&
              forall k :: 0 <= k < |out| ==> PolygonOf(m, labels, k, polys[k], out[k])
  {
    hide PartsDone, Printed, Printable, Mappable;
    var polys := MakePolys.MakePolys(m);
    ghost var labels, seeds, all, partpolys :| PartsDone(m, labels, seeds, all, partpolys, polys);
    assert labels.Valid() by { PartsLabels(m, labels, seeds, all, partpolys, polys); }
    out := [];
    for k := 0 to |polys|
      invariant |out| == k && forall i :: 0 <= i < k ==> PolygonOf(m, labels, i, polys[i], out[i])
    {
      var res: Option<Polygon> := None;
      DoneAt(m, labels, seeds, all, partpolys, polys, k);
      if polys[k].Merged? && !polys[k].extrawrap {
        var poly := PrintPart(m, labels, k, polys[k].recs);
        res := Some(poly);
      }
      out := out + [res];
    }
  }

  lemma {:induction false} PartsLabels(m: BlockMap, labels: Labels, seeds: seq<Vec>, all: seq<Traced>,
                                       partpolys: PartPolys, polys: seq<Merged>)
    requires m.Valid() && PartsDone(m, labels, seeds, all, partpolys, polys)
    ensures labels.Valid()
  {
    hide IsPartition, Entries, RowScan.AllTraced, Filed, PartDone;
  }
}
