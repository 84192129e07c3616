/** The merged outline of a part closes: its offsets add up to nothing, even where outlines wrap around the map. */
module Closing {
  import opened Torus
  import opened Blocks
  import opened Partition
  import opened Outline
  import opened Trace
  import opened EdgeCover
  import opened Winding
  import opened Tour
  import opened Conversion
  import opened GridSums
  import opened PartBorder

  /** Counts the visible records that go in direction d. */
  ghost function Going(d: Dir, width: int, height: int): Measure {
    Measure((v: Vec, o: Vec) => if o == Unit(d) then 1 else 0, (o: Vec) => 0, width, height)
  }

  /** How often a record shows direction d at each corner. */
  ghost function ShownAt(recs: seq<Rec>, d: Dir, width: int, height: int): Vec -> int
    requires width > 0 && height > 0
  {
    (v: Vec) => Shown(recs, State(v, d), width, height)
  }

  lemma GridNothing(f: Vec -> int, width: int, height: int)
    requires width > 0 && height > 0 && forall v :: f(v) == 0
    ensures GridSum(f, width, height) == 0
  {
    GridAdds(f, f, f, width, height);
  }

  /** The records that go in a direction, counted corner by corner. */
  lemma {:induction false} GoingShown(recs: seq<Rec>, d: Dir, width: int, height: int)
    requires width > 0 && height > 0
    ensures Weigh(Going(d, width, height), recs) == GridSum(ShownAt(recs, d, width, height), width, height)
    decreases |recs|
  {
    hide GridSum, Wrap, Unit;
    var f := ShownAt(recs, d, width, height);
    if recs == [] {
      GridNothing(f, width, height);
    } else {
      var rest, r := recs[..|recs| - 1], recs[|recs| - 1];
      var p, c := Wrap(r.pos, width, height), if !r.hidden && r.off == Unit(d) then 1 else 0;
      GoingShown(rest, d, width, height);
      forall v ensures ShownAt(rest, d, width, height)(v) + OnlyAt(p, c)(v) == f(v) {}
      GridAdds(ShownAt(rest, d, width, height), OnlyAt(p, c), f, width, height);
      WrapInside(r.pos, width, height);
      GridOne(p, c, width, height);
    }
  }

  lemma WrapInside(p: Vec, width: int, height: int)
    requires width > 0 && height > 0
    ensures var q := Wrap(p, width, height); 0 <= q.x < width && 0 <= q.y < height
  {}

  // ----- Offsets, counted by direction

  ghost function EdgesGoing(poly: seq<Edge>, n: nat, width: int, height: int): Dir -> int
    requires n <= |poly| && width > 0 && height > 0
  {
    (d: Dir) => EdgeSum(Going(d, width, height), poly, n)
  }

  ghost function NodesGoing(tree: Forest, n: nat, width: int, height: int): Dir -> int
    requires n <= |tree| && width > 0 && height > 0
  {
    (d: Dir) => NodeSum(Going(d, width, height), tree, n)
  }

  lemma ResultantStep(c: Dir -> int, c': Dir -> int, e: Dir)
    requires forall d: Dir :: c'(d) == c(d) + if d == e then 1 else 0
    ensures Resultant(c') == Plus(Resultant(c), Unit(e))
  {}

  lemma ResultantAdds(a: Dir -> int, b: Dir -> int, c: Dir -> int)
    requires forall d: Dir :: a(d) + b(d) == c(d)
    ensures Plus(Resultant(a), Resultant(b)) == Resultant(c)
  {}

  lemma ResultantSame(a: Dir -> int, b: Dir -> int)
    requires forall d: Dir :: a(d) == b(d)
    ensures Resultant(a) == Resultant(b)
  {}

  lemma {:induction false} PrefixGoes(poly: seq<Edge>, n: nat, width: int, height: int)
    requires Heads(poly) && n <= |poly| && width > 0 && height > 0
    ensures Prefix(poly, n) == Resultant(EdgesGoing(poly, n, width, height))
  {
    if n > 0 {
      hide Resultant, Heads, Unit;
      PrefixGoes(poly, n - 1, width, height);
      var e := StepDir(poly, n - 1);
      forall d: Dir
        ensures EdgesGoing(poly, n, width, height)(d) ==
                EdgesGoing(poly, n - 1, width, height)(d) + if d == e then 1 else 0
      {
        UnitInjective(d, e);
      }
      ResultantStep(EdgesGoing(poly, n - 1, width, height), EdgesGoing(poly, n, width, height), e);
    } else {
      assert Resultant(EdgesGoing(poly, 0, width, height)) == Vec(0, 0);
    }
  }

  lemma StepDir(poly: seq<Edge>, i: nat) returns (d: Dir)
    requires Heads(poly) && i < |poly|
    ensures poly[i].off == Unit(d)
  {
    d := DirsOf(poly)[i];
  }

  lemma {:induction false} NoLinksGoing(d: Dir, width: int, height: int, links: seq<TreeLink>, n: nat)
    requires n <= |links|
    ensures LinkSum(Going(d, width, height), links, n) == 0
  {
    if n > 0 { NoLinksGoing(d, width, height, links, n - 1); }
  }

  lemma {:induction false} OwnGoes(tree: Forest, n: nat, width: int, height: int)
    requires n <= |tree| && width > 0 && height > 0 && forall i :: 0 <= i < |tree| ==> Heads(tree[i].poly)
    ensures OwnSum(tree, n) == Resultant(NodesGoing(tree, n, width, height))
  {
    if n > 0 {
      hide Resultant, Heads;
      var poly := tree[n - 1].poly;
      OwnGoes(tree, n - 1, width, height);
      PrefixGoes(poly, |poly|, width, height);
      forall d: Dir
        ensures NodesGoing(tree, n - 1, width, height)(d) + EdgesGoing(poly, |poly|, width, height)(d) ==
                NodesGoing(tree, n, width, height)(d)
      {
        NoLinksGoing(d, width, height, tree[n - 1].links, |tree[n - 1].links|);
      }
      ResultantAdds(NodesGoing(tree, n - 1, width, height), EdgesGoing(poly, |poly|, width, height),
                    NodesGoing(tree, n, width, height));
    } else {
      assert Resultant(NodesGoing(tree, 0, width, height)) == Vec(0, 0);
    }
  }

  // ----- Parts

  /** The records that go in direction d show the part's border edges in that direction. */
  lemma GoingBorder(m: BlockMap, labels: Labels, k: nat, recs: seq<Rec>, d: Dir)
    requires m.Valid() && labels.Valid()
    requires forall s :: Shown(recs, s, m.width, m.height) == if Boundary(m, s) && InPart(labels, s, k) then 1 else 0
    ensures Weigh(Going(d, m.width, m.height), recs) == Edges(m, labels, k, d)
  {
    hide Borders, InPart, Weigh;
    GoingShown(recs, d, m.width, m.height);
    GridSame(ShownAt(recs, d, m.width, m.height), EdgeIn(m, labels, k, d), m.width, m.height);
  }

  /** If the records of a tour show exactly the border of a part, they lead back to where they start. */
  lemma BorderTourCloses(m: BlockMap, labels: Labels, seeds: seq<Vec>, k: nat, tree: Forest, slot: seq<(nat, nat)>)
    requires m.Valid() && labels.Valid() && IsPartition(m, labels, seeds) && Fits(tree, m.width, m.height) &&
             IsTree(tree, slot)
    requires |tree[0].poly| > 0 && forall i :: 0 <= i < |tree| ==> Heads(tree[i].poly)
    requires forall s :: Shown(Visit(tree, 0, tree[0].poly[0].pos, 0), s, m.width, m.height) ==
                         if Boundary(m, s) && InPart(labels, s, k) then 1 else 0
    ensures OffsetSum(Visit(tree, 0, tree[0].poly[0].pos, 0)) == Vec(0, 0)
  {
    assert WellFormed(tree) && |tree| > 0;
    hide IsPartition, Fits, WellFormed, IsTree, Heads, Boundary, InPart, Resultant, Edges, Shown, Weigh, NodeSum;
    var recs := Visit(tree, 0, tree[0].poly[0].pos, 0);
    VisitSum(tree, slot, tree[0].poly[0].pos, 0, m.width, m.height);
    OwnGoes(tree, |tree|, m.width, m.height);
    forall d: Dir
      ensures NodesGoing(tree, |tree|, m.width, m.height)(d) == EdgeCounts(m, labels, k)(d)
    {
      TourConserves(Going(d, m.width, m.height), tree, slot, tree[0].poly[0].pos, 0);
      GoingBorder(m, labels, k, recs, d);
    }
    ResultantSame(NodesGoing(tree, |tree|, m.width, m.height), EdgeCounts(m, labels, k));
    BorderCancels(m, labels, seeds, k);
  }
}
