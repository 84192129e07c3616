/** makepolys: from the characters of a map to one merged outline for each part. */
module MakePolys {
  import opened Torus
  import opened Blocks
  import opened Partition
  import opened Outline
  import opened Trace
  import opened EdgeCover
  import opened FindEdges
  import opened RowScan
  import opened Winding
  import opened Tour
  import opened Spanning
  import opened Linking
  import opened PolyLink
  import opened Conversion
  import opened Closing
  import opened Borderless
  import opened Bends
  import opened Straight
  import opened MergedBends
  import opened VisibleRecs

  ghost predicate Toured(polys: seq<seq<Edge>>, width: int, height: int, recs: seq<Rec>)
    requires width > 0 && height > 0 && !IsBadMix(polys)
  {
    exists tree, slot, ord :: TouredAs(polys, width, height, recs, tree, slot, ord)
  }

  /** What is delivered for part k with the given outlines: all its border and nothing else, as one closed outline that
      bends somewhere, the tour of a least tree of shortest links; or the reason why not. */
  ghost predicate PartDone(m: BlockMap, labels: Labels, k: nat, polys: seq<seq<Edge>>, res: Merged)
    requires m.Valid() && labels.Valid()
  {
    match res
    case NoOutlines => AllFull(m)
    case BadMix => !AllFull(m) && IsBadMix(polys)
    case Merged(recs, extrawrap) =>
      !AllFull(m) && !IsBadMix(polys) && (extrawrap <==> OfSign(polys, 1) == [] && OfSign(polys, 0) == []) &&
      Toured(polys, m.width, m.height, recs) && recs != [] && OffsetSum(recs) == Vec(0, 0) &&
      Leads(recs, recs[0].pos, recs[0].pos, m.width, m.height, false) && Bent(recs) &&
      (forall t :: 0 <= t < |recs| && !recs[t].hidden ==> OnBorder(m, labels, k, recs[t])) &&
      forall s :: Shown(recs, s, m.width, m.height) == if Boundary(m, s) && InPart(labels, s, k) then 1 else 0
  }

  lemma {:induction false} FiledFrom(all: seq<Traced>, k: nat, p: seq<Edge>) returns (i: nat)
    requires p in FiledUnder(all, k)
    ensures i < |all| && all[i].part == k && all[i].poly == p
    decreases |all|
  {
    var n := |all| - 1;
    if p in FiledUnder(all[..n], k) { i := FiledFrom(all[..n], k, p); } else { i := n; }
  }

  lemma {:induction false} FiledSome(all: seq<Traced>, k: nat, i: nat)
    requires i < |all| && all[i].part == k
    ensures FiledUnder(all, k) != []
    decreases |all|
  {
    if i < |all| - 1 { FiledSome(all[..|all| - 1], k, i); }
  }

  lemma {:induction false} EntryAt(m: BlockMap, labels: Labels, e: Traced, s: State)
    requires m.Valid() && labels.Valid() && Entry(m, labels, e)
    ensures e.trail != []
    ensures s in e.trail ==> Boundary(m, s) && InPart(labels, s, e.part)
  {
    hide Boundary, InPart, Follows, Step, Anchored;
  }

  lemma {:induction false} PlaceAt(m: BlockMap, labels: Labels, all: seq<Traced>, i: nat, s: State)
    requires m.Valid() && labels.Valid() && Entries(m, labels, all) && i < |all|
    ensures all[i].trail != []
    ensures s in all[i].trail ==> Boundary(m, s) && InPart(labels, s, all[i].part)
  {
    EntriesEach(m, labels, all);
    EntryAt(m, labels, all[i], s);
  }

  lemma {:induction false} TracedIn(m: BlockMap, all: seq<Traced>, s: State) returns (i: nat)
    requires m.Valid() && AllTraced(m, all) && Boundary(m, s)
    ensures i < |all| && s in all[i].trail
  {
    hide Boundary;
    assert InAll(all, s);
    i :| 0 <= i < |all| && s in all[i].trail;
  }

  /** A border edge of part k lies on an outline filed under k. */
  lemma {:induction false} BorderFiled(m: BlockMap, labels: Labels, all: seq<Traced>, k: nat, s: State)
    requires m.Valid() && labels.Valid() && Entries(m, labels, all) && AllTraced(m, all)
    requires Boundary(m, s) && InPart(labels, s, k)
    ensures FiledUnder(all, k) != []
  {
    hide Entries, AllTraced, Boundary, InPart, FiledUnder;
    var i := TracedIn(m, all, s);
    PlaceAt(m, labels, all, i, s);
    OnePart(labels, s, k, all[i].part);
    FiledSome(all, k, i);
  }

  /** An outline filed under part k follows border edges of part k. */
  lemma {:induction false} FiledBorders(m: BlockMap, labels: Labels, all: seq<Traced>, k: nat) returns (s: State)
    requires m.Valid() && labels.Valid() && Entries(m, labels, all) && FiledUnder(all, k) != []
    ensures Boundary(m, s) && InPart(labels, s, k)
  {
    hide Entries, Boundary, InPart, FiledUnder;
    var i := FiledFrom(all, k, FiledUnder(all, k)[0]);
    PlaceAt(m, labels, all, i, State(Vec(0, 0), 0));
    s := all[i].trail[0];
    PlaceAt(m, labels, all, i, s);
  }

  /** A part without outlines is a part without border. */
  lemma {:induction false} NothingFiled(m: BlockMap, labels: Labels, all: seq<Traced>, k: nat)
    requires m.Valid() && labels.Valid() && Entries(m, labels, all) && AllTraced(m, all)
    ensures FiledUnder(all, k) == [] <==> NoBorder(m, labels, k)
  {
    hide Entries, AllTraced, Boundary, InPart, FiledUnder;
    if FiledUnder(all, k) == [] {
      forall s | Boundary(m, s) ensures !InPart(labels, s, k) {
        if InPart(labels, s, k) { BorderFiled(m, labels, all, k, s); }
      }
    } else {
      var s := FiledBorders(m, labels, all, k);
    }
  }

  lemma {:induction false} FiledOutlines(m: BlockMap, labels: Labels, seeds: seq<Vec>, all: seq<Traced>, k: nat)
    requires m.Valid() && labels.Valid() && IsPartition(m, labels, seeds) && Entries(m, labels, all) && Mappable(m)
    ensures forall p :: p in FiledUnder(all, k) ==> IsOutline(p, m.width, m.height)
  {
    hide IsPartition, Entries, IsOutline, Mappable;
    forall p | p in FiledUnder(all, k) ensures IsOutline(p, m.width, m.height) {
      var i := FiledFrom(all, k, p);
      EntriesEach(m, labels, all);
      TracedIsOutline(m, labels, seeds, all[i]);
    }
  }

  lemma {:induction false} PartOutlines(m: BlockMap, labels: Labels, seeds: seq<Vec>, partpolys: PartPolys,
                                        all: seq<Traced>, k: nat)
    requires m.Valid() && labels.Valid() && IsPartition(m, labels, seeds) && Mappable(m)
    requires Entries(m, labels, all) && Filed(partpolys, all) && k < |partpolys|
    ensures forall p :: p in partpolys[k] ==> IsOutline(p, m.width, m.height)
  {
    hide IsPartition, Entries, IsOutline, Mappable;
    FiledOutlines(m, labels, seeds, all, k);
  }

  lemma {:induction false} TreeHeads(polys: seq<seq<Edge>>, tree: Forest, slot: seq<(nat, nat)>, ord: seq<int>)
    requires TreeOf(polys, tree, slot, ord)
    ensures IsTree(tree, slot) && AllHeads(tree)
  {
    hide IsTree, Heads;
  }

  lemma {:induction false} SortedIn(polys: seq<seq<Edge>>, p: seq<Edge>)
    requires p in Sorted(polys)
    ensures p in polys
  {
    hide OfSign;
    OfSignMembers(polys, -1);
    OfSignMembers(polys, 1);
    OfSignMembers(polys, 0);
  }

  /** Each outline of the tree is one that was traced on the map. */
  lemma {:induction false} NodeWalks(m: BlockMap, labels: Labels, partpolys: PartPolys, all: seq<Traced>, k: nat,
                                     p: seq<Edge>)
    requires m.Valid() && labels.Valid() && Entries(m, labels, all) && Filed(partpolys, all) && k < |partpolys|
    requires p in Sorted(partpolys[k])
    ensures OnMap(m, p)
  {
    hide Sorted, Entries, Entry, Walks;
    SortedIn(partpolys[k], p);
    var i := FiledFrom(all, k, p);
    EntriesEach(m, labels, all);
    EntryWalks(m, labels, all[i]);
  }

  lemma {:induction false} EntryWalks(m: BlockMap, labels: Labels, e: Traced)
    requires m.Valid() && labels.Valid() && Entry(m, labels, e)
    ensures Walks(m, e.poly, e.trail)
  {
    hide Cycle, Follows, Anchored, InPart;
  }

  lemma {:induction false} LeastIsTree(polys: seq<seq<Edge>>, f: Vec -> Vec, tree: Forest, slot: seq<(nat, nat)>,
                                       ord: seq<int>, width: int, height: int)
    requires LeastTree(polys, f, tree, slot, ord) && forall i :: 0 <= i < |polys| ==> IsOutline(polys[i], width, height)
    ensures TreeOf(polys, tree, slot, ord) && forall k :: 0 <= k < |tree| ==> tree[k].poly in polys
  {
    hide IsTree, Heads, GoodOutline, Bounded, ShortLinks, Within, Connects, Total, ForestCost;
    forall k | 0 <= k < |tree| ensures Heads(tree[k].poly) && tree[k].poly != [] {
      OutlineNonEmpty(polys[ord[k]], width, height);
    }
    OrderLength(ord, |polys|);
  }

  ghost function Below(n: nat): (s: set<int>)
    ensures |s| == n && forall v :: v in s <==> 0 <= v < n
  {
    if n == 0 then {} else Below(n - 1) + {n - 1}
  }

  lemma {:induction false} OrderLength(ord: seq<int>, n: nat)
    requires Split(n, ord, [])
    ensures Order(ord, n) && |ord| == n
  {
    DistinctCount(ord);
    assert (set v | v in ord) == Below(n);
  }

  /** The tree is one over outlines traced on the map. */
  lemma {:induction false} TourTree(m: BlockMap, labels: Labels, seeds: seq<Vec>, partpolys: PartPolys,
                                    all: seq<Traced>, k: nat, f: Vec -> Vec, tree: Forest, slot: seq<(nat, nat)>,
                                    ord: seq<int>)
    requires m.Valid() && labels.Valid() && IsPartition(m, labels, seeds) && Mappable(m)
    requires Entries(m, labels, all) && Filed(partpolys, all) && k < |partpolys|
    requires LeastTree(Sorted(partpolys[k]), f, tree, slot, ord)
    ensures TreeOf(Sorted(partpolys[k]), tree, slot, ord)
    ensures forall i :: 0 <= i < |tree| ==> OnMap(m, tree[i].poly)
  {
    hide IsPartition, Entries, LeastTree, IsOutline, Sorted, Mappable, TreeOf, OnMap, Filed;
    PartOutlines(m, labels, seeds, partpolys, all, k);
    SortedOutlines(partpolys[k], m.width, m.height);
    LeastIsTree(Sorted(partpolys[k]), f, tree, slot, ord, m.width, m.height);
    forall i | 0 <= i < |tree| ensures OnMap(m, tree[i].poly) {
      NodeWalks(m, labels, partpolys, all, k, tree[i].poly);
    }
  }

  /** The merged outline of a part bends. */
  lemma {:induction false} TourBends(m: BlockMap, polys: seq<seq<Edge>>, tree: Forest, slot: seq<(nat, nat)>,
                                     ord: seq<int>)
    requires m.Valid() && !IsBadMix(polys) && TreeOf(Sorted(polys), tree, slot, ord) && Fits(tree, m.width, m.height)
    requires forall i :: 0 <= i < |tree| ==> OnMap(m, tree[i].poly)
    requires |tree| > 0 && |tree[0].poly| > 0
    requires OffsetSum(Visit(tree, 0, tree[0].poly[0].pos, 0)) == Vec(0, 0)
    ensures Bent(Visit(tree, 0, tree[0].poly[0].pos, 0))
  {
    hide IsBadMix, OfSign, Visit, Fits, Sorted, OffsetSum, OwnSum, Heads, IsTree, Bent, TreeOf, OnMap;
    TreeIs(Sorted(polys), tree, slot, ord);
    VisitSum(tree, slot, tree[0].poly[0].pos, 0, m.width, m.height);
    MixBends(m, polys, tree, slot, ord, tree[0].poly[0].pos);
  }

  /** The merged outline of a part shows exactly its border. */
  lemma {:induction false} MergedShows(m: BlockMap, labels: Labels, partpolys: PartPolys, all: seq<Traced>, k: nat,
                                       f: Vec -> Vec, tree: Forest, slot: seq<(nat, nat)>, ord: seq<int>)
    requires m.Valid() && labels.Valid() && Entries(m, labels, all) && AllTraced(m, all) && Filed(partpolys, all)
    requires k < |partpolys| && LeastTree(Sorted(partpolys[k]), f, tree, slot, ord) && Fits(tree, m.width, m.height)
    requires WellFormed(tree) && |tree| > 0 && |tree[0].poly| > 0
    ensures forall s :: Shown(Visit(tree, 0, tree[0].poly[0].pos, 0), s, m.width, m.height) ==
                        if Boundary(m, s) && InPart(labels, s, k) then 1 else 0
  {
    hide WellFormed, Visit, Entries, AllTraced, LeastTree, Fits, Sorted, Boundary, InPart, Shown, Filed;
    forall s
      ensures Shown(Visit(tree, 0, tree[0].poly[0].pos, 0), s, m.width, m.height) ==
              if Boundary(m, s) && InPart(labels, s, k) then 1 else 0
    {
      PartShowsItsBorder(m, labels, partpolys, all, k, s, f, tree, slot, ord);
    }
  }

  /** Such an outline leads back to its start, in steps of one block where it is visible. */
  lemma {:induction false} MergedReturns(m: BlockMap, labels: Labels, seeds: seq<Vec>, k: nat, tree: Forest,
                                         slot: seq<(nat, nat)>)
    requires m.Valid() && labels.Valid() && IsPartition(m, labels, seeds) && IsTree(tree, slot)
    requires Fits(tree, m.width, m.height) && WellFormed(tree) && |tree| > 0 && |tree[0].poly| > 0 && AllHeads(tree)
    requires forall s :: Shown(Visit(tree, 0, tree[0].poly[0].pos, 0), s, m.width, m.height) ==
                         if Boundary(m, s) && InPart(labels, s, k) then 1 else 0
    ensures var recs := Visit(tree, 0, tree[0].poly[0].pos, 0);
            && recs != [] && OffsetSum(recs) == Vec(0, 0) && UnitRecs(recs)
            && Leads(recs, recs[0].pos, recs[0].pos, m.width, m.height, false)
  {
    hide IsPartition, IsTree, Fits, WellFormed, Visit, Heads, Shown, Boundary, InPart, OffsetSum, UnitRecs, Leads;
    var start := tree[0].poly[0].pos;
    BorderTourCloses(m, labels, seeds, k, tree, slot);
    VisitLeads(tree, 0, start, 0, m.width, m.height, false);
    VisitStarts(tree, start);
    VisitUnits(tree, 0, start, 0);
  }

  /** The merged outline of a part shows its border, closes and bends. */
  lemma {:induction false} MergedDone(m: BlockMap, labels: Labels, seeds: seq<Vec>, partpolys: PartPolys,
                                      all: seq<Traced>, k: nat, recs: seq<Rec>, tree: Forest, slot: seq<(nat, nat)>,
                                      ord: seq<int>, extrawrap: bool)
    requires m.Valid() && labels.Valid() && IsPartition(m, labels, seeds) && Mappable(m)
    requires Entries(m, labels, all) && AllTraced(m, all) && Filed(partpolys, all) && k < |partpolys|
    requires !AllFull(m) && !IsBadMix(partpolys[k]) &&
             (extrawrap <==> OfSign(partpolys[k], 1) == [] && OfSign(partpolys[k], 0) == [])
    requires TouredAs(partpolys[k], m.width, m.height, recs, tree, slot, ord)
    ensures PartDone(m, labels, k, partpolys[k], Merged(recs, extrawrap))
  {
    hide PartDone, AllFull, IsBadMix, OfSign, WellFormed, Visit, IsPartition, Entries, AllTraced, LeastTree, Fits;
    hide Sorted, Boundary, InPart, Shown, OffsetSum, Leads, Mappable, Heads, IsTree, Bent, UnitRecs, TreeOf, OnMap;
    hide Filed, Loops, OffsetsFor, AllShortest;
    assert Toured(partpolys[k], m.width, m.height, recs);
    var f := OffsetsFor(partpolys[k], m.width, m.height);
    FitsLoops(tree, m.width, m.height, 0);
    TourTree(m, labels, seeds, partpolys, all, k, f, tree, slot, ord);
    TreeHeads(Sorted(partpolys[k]), tree, slot, ord);
    MergedShows(m, labels, partpolys, all, k, f, tree, slot, ord);
    MergedReturns(m, labels, seeds, k, tree, slot);
    TourBends(m, partpolys[k], tree, slot, ord);
    MergedIs(m, labels, k, partpolys[k], recs, extrawrap);
  }

  lemma {:induction false} MergedIs(m: BlockMap, labels: Labels, k: nat, polys: seq<seq<Edge>>, recs: seq<Rec>,
                                    extrawrap: bool)
    requires m.Valid() && labels.Valid() && !AllFull(m) && !IsBadMix(polys) && Toured(polys, m.width, m.height, recs)
    requires extrawrap <==> OfSign(polys, 1) == [] && OfSign(polys, 0) == []
    requires recs != [] && OffsetSum(recs) == Vec(0, 0) &&
             Leads(recs, recs[0].pos, recs[0].pos, m.width, m.height, false)
    requires Bent(recs) && UnitRecs(recs)
    requires forall s :: Shown(recs, s, m.width, m.height) == if Boundary(m, s) && InPart(labels, s, k) then 1 else 0
    ensures PartDone(m, labels, k, polys, Merged(recs, extrawrap))
  {
    hide AllFull, IsBadMix, OfSign, OffsetSum, Leads, Shown, Boundary, InPart, Bent, UnitRecs, OnBorder, Toured;
    VisibleOnBorder(m, labels, k, recs);
  }

  lemma {:induction false} VisitStarts(tree: Forest, start: Vec)
    requires WellFormed(tree) && |tree| > 0
    ensures var recs := Visit(tree, 0, start, 0); recs != [] && recs[0].pos == start
  {
    AroundStarts(tree, 0, start, 0, |tree[0].poly|);
  }

  lemma {:induction false} AroundStarts(tree: Forest, i: nat, pos: Vec, start: nat, n: nat)
    requires WellFormed(tree) && i < |tree| && n > 0
    ensures var recs := Around(tree, i, pos, start, n); recs != [] && recs[0].pos == pos
    decreases n
  {
    if n > 1 {
      AroundStarts(tree, i, pos, start, n - 1);
    } else {
      var c := Corner(tree[i].poly, start, 0);
      LinksStart(tree, i, pos, c, |tree[i].links|);
      assert Around(tree, i, pos, start, 0) == [];
    }
  }

  lemma {:induction false} LinksStart(tree: Forest, i: nat, at: Vec, c: nat, j: nat)
    requires WellFormed(tree) && i < |tree| && j <= |tree[i].links|
    ensures var recs := LinksAt(tree, i, at, c, j); recs == [] || recs[0].pos == at
    decreases j
  {
    if j > 0 {
      hide Visit;
      LinksStart(tree, i, at, c, j - 1);
    }
  }

  /** The results belong to the parts of the map, in the order of their numbers, and to the outlines traced on it, which
      are filed under them. */
  ghost predicate PartsDone(m: BlockMap, labels: Labels, seeds: seq<Vec>, all: seq<Traced>, partpolys: PartPolys,
                            polys: seq<Merged>)
    requires m.Valid()
  {
    labels.Valid() && IsPartition(m, labels, seeds) && Entries(m, labels, all) && AllTraced(m, all) &&
    Filed(partpolys, all) && |polys| == |partpolys| == |seeds| &&
    forall k :: 0 <= k < |polys| ==> PartDone(m, labels, k, partpolys[k], polys[k])
  }

  ghost predicate Converted(m: BlockMap, polys: seq<Merged>)
    requires m.Valid()
  {
    exists labels, seeds, all, partpolys :: PartsDone(m, labels, seeds, all, partpolys, polys)
  }

  /** One outline for each part of the map. */
  method MakePolys(m: BlockMap) returns (polys: seq<Merged>)
    requires m.Valid() && Mappable(m)
    ensures Converted(m, polys)
  {
    hide IsPartition, Entries, AllTraced, Filed, LeastTree, IsOutline, Fits, Mappable, PartDone;
    var labels, partcount;
    ghost var seeds;
    labels, partcount, seeds := PolyPartition(m);
    PartitionSize(m, labels, seeds);
    ghost var all;
    var partpolys;
    partpolys, all := PolyFindEdges(m, labels, partcount, seeds);
    polys := [];
    for k := 0 to partcount
      invariant |polys| == k && forall i :: 0 <= i < k ==> PartDone(m, labels, i, partpolys[i], polys[i])
    {
      var part := LinkPart(m, labels, seeds, partpolys, all, k);
      polys := polys + [part];
    }
    assert PartsDone(m, labels, seeds, all, partpolys, polys);
  }

  /** The outlines of a part qualify for linking, and there are some unless the map is full. */
  lemma {:induction false} PartReady(m: BlockMap, labels: Labels, seeds: seq<Vec>, partpolys: PartPolys,
                                     all: seq<Traced>, k: nat)
    requires m.Valid() && labels.Valid() && IsPartition(m, labels, seeds) && Mappable(m) && |partpolys| == |seeds| &&
             k < |seeds|
    requires Entries(m, labels, all) && AllTraced(m, all) && Filed(partpolys, all)
    ensures forall p :: p in partpolys[k] ==> IsOutline(p, m.width, m.height)
    ensures partpolys[k] == [] <==> AllFull(m)
  {
    hide IsPartition, Entries, AllTraced, IsOutline, Mappable, NoBorder, AllFull;
    FiledOutlines(m, labels, seeds, all, k);
    NothingFiled(m, labels, all, k);
    NoBorderExactly(m, labels, seeds, k);
  }

  lemma {:induction false} NotDone(m: BlockMap, labels: Labels, k: nat, polys: seq<seq<Edge>>, res: Merged)
    requires m.Valid() && labels.Valid() && !res.Merged?
    requires if res.NoOutlines? then AllFull(m) else !AllFull(m) && IsBadMix(polys)
    ensures PartDone(m, labels, k, polys, res)
  {}

  method LinkPart(m: BlockMap, ghost labels: Labels, ghost seeds: seq<Vec>, partpolys: PartPolys,
                  ghost all: seq<Traced>, k: nat)
    returns (res: Merged)
    requires m.Valid() && labels.Valid() && IsPartition(m, labels, seeds) && Mappable(m) && |partpolys| == |seeds| &&
             k < |seeds|
    requires Entries(m, labels, all) && AllTraced(m, all) && Filed(partpolys, all)
    ensures PartDone(m, labels, k, partpolys[k], res)
  {
    hide IsPartition, Entries, AllTraced, Filed, LeastTree, IsOutline, Fits, Mappable, IsBadMix, AllFull, Visit;
    hide PartDone, TouredAs, OfSign;
    PartReady(m, labels, seeds, partpolys, all, k);
    ghost var tree, slot, ord;
    res, tree, slot, ord := LinkOutlines(partpolys[k], m.width, m.height);
    if res.Merged? {
      MergedDone(m, labels, seeds, partpolys, all, k, res.recs, tree, slot, ord, res.extrawrap);
    } else {
      NotDone(m, labels, k, partpolys[k], res);
    }
  }
}
