/** What the conversion of a block map to polygons preserves, from the border edges to the merged outlines. */
module Conversion {
  import opened Torus
  import opened Blocks
  import opened Partition
  import opened Outline
  import opened Trace
  import opened EdgeCover
  import opened FindEdges
  import opened RowScan
  import opened Winding
  import opened Tour
  import opened Spanning
  import opened Linking
  import opened PolyLink

  /** Counts the visible records that lie on border edge s. */
  ghost function Counting(s: State, width: int, height: int): Measure {
    Measure((v: Vec, o: Vec) => if v == s.v && o == Unit(s.d) then 1 else 0, (o: Vec) => 0, width, height)
  }

  ghost function Shown(recs: seq<Rec>, s: State, width: int, height: int): int
    requires width > 0 && height > 0
  {
    Weigh(Counting(s, width, height), recs)
  }

  lemma UnitInjective(d: Dir, e: Dir)
    ensures Unit(d) == Unit(e) ==> d == e
  {
    DirOfUnit(d);
    DirOfUnit(e);
  }

  /** An outline shows an edge once if its trail passes it and not at all otherwise. */
  lemma {:induction false} EdgeSumCounts(m: BlockMap, poly: seq<Edge>, t: seq<State>, s: State, n: nat)
    requires m.Valid() && Trail(m, t) && Follows(m, poly, t) && n <= |t|
    ensures EdgeSum(Counting(s, m.width, m.height), poly, n) == if s in t[..n] then 1 else 0
  {
    hide Step, Boundary, Unit;
    if n > 0 {
      EdgeSumCounts(m, poly, t, s, n - 1);
      UnitInjective(t[n - 1].d, s.d);
      assert t[..n] == t[..n - 1] + [t[n - 1]];
      assert m.Home(poly[n - 1].pos) == t[n - 1].v;
      if s in t[..n - 1] {
        var i :| 0 <= i < n - 1 && t[i] == s;
        assert t[i] != t[n - 1];
      }
    }
  }

  lemma {:induction false} LinkSumZero(s: State, width: int, height: int, links: seq<TreeLink>, n: nat)
    requires n <= |links|
    ensures LinkSum(Counting(s, width, height), links, n) == 0
  {
    if n > 0 { LinkSumZero(s, width, height, links, n - 1); }
  }

  // ---- sums over lists of outlines ----

  ghost function PolySum(g: Measure, polys: seq<seq<Edge>>, n: nat): int
    requires n <= |polys| && g.width > 0 && g.height > 0
  {
    if n == 0 then 0 else PolySum(g, polys, n - 1) + EdgeSum(g, polys[n - 1], |polys[n - 1]|)
  }

  lemma {:induction false} PolySumPrefix(g: Measure, p: seq<seq<Edge>>, q: seq<seq<Edge>>, n: nat)
    requires n <= |p| && n <= |q| && p[..n] == q[..n] && g.width > 0 && g.height > 0
    ensures PolySum(g, p, n) == PolySum(g, q, n)
  {
    if n > 0 {
      assert p[..n - 1] == p[..n][..n - 1] && q[..n - 1] == q[..n][..n - 1];
      assert p[n - 1] == p[..n][n - 1] && q[n - 1] == q[..n][n - 1];
      PolySumPrefix(g, p, q, n - 1);
    }
  }

  lemma {:induction false} PolySumConcat(g: Measure, p: seq<seq<Edge>>, q: seq<seq<Edge>>)
    requires g.width > 0 && g.height > 0
    ensures PolySum(g, p + q, |p + q|) == PolySum(g, p, |p|) + PolySum(g, q, |q|)
    decreases |q|
  {
    if q == [] {
      assert p + q == p;
    } else {
      var r := q[..|q| - 1];
      PolySumConcat(g, p, r);
      PolySumPrefix(g, p + q, p + r, |p + r|);
      PolySumPrefix(g, q, r, |r|);
    }
  }

  lemma PolySumOne(g: Measure, p: seq<Edge>)
    requires g.width > 0 && g.height > 0
    ensures PolySum(g, [p], 1) == EdgeSum(g, p, |p|) && PolySum(g, [], 0) == 0
  {
    assert PolySum(g, [p], 1) == PolySum(g, [p], 0) + EdgeSum(g, p, |p|);
  }

  /** Sorting the outlines by their turns keeps the sum. */
  lemma {:induction false} SortedSum(g: Measure, polys: seq<seq<Edge>>)
    requires g.width > 0 && g.height > 0
    ensures PolySum(g, OfSign(polys, -1), |OfSign(polys, -1)|) + PolySum(g, OfSign(polys, 1), |OfSign(polys, 1)|) +
            PolySum(g, OfSign(polys, 0), |OfSign(polys, 0)|) == PolySum(g, polys, |polys|)
    decreases |polys|
  {
    hide FullTurns, EdgeSum;
    if polys != [] {
      var rest, last := polys[..|polys| - 1], polys[|polys| - 1];
      SortedSum(g, rest);
      PolySumPrefix(g, polys, rest, |rest|);
      PolySumOne(g, last);
      OneMore(g, rest, last, -1);
      OneMore(g, rest, last, 1);
      OneMore(g, rest, last, 0);
      assert polys == rest + [last];
    }
  }

  lemma OneMore(g: Measure, rest: seq<seq<Edge>>, last: seq<Edge>, sign: int)
    requires g.width > 0 && g.height > 0
    ensures PolySum(g, OfSign(rest + [last], sign), |OfSign(rest + [last], sign)|) ==
            PolySum(g, OfSign(rest, sign), |OfSign(rest, sign)|) +
            if Sign(FullTurns(last)) == sign then EdgeSum(g, last, |last|) else 0
  {
    hide FullTurns, EdgeSum, PolySum;
    assert (rest + [last])[..|rest|] == rest;
    PolySumOne(g, last);
    if Sign(FullTurns(last)) == sign {
      PolySumConcat(g, OfSign(rest, sign), [last]);
    } else {
      assert OfSign(rest, sign) + [] == OfSign(rest, sign);
    }
  }

  lemma SortedTotal(g: Measure, polys: seq<seq<Edge>>)
    requires g.width > 0 && g.height > 0
    ensures PolySum(g, Sorted(polys), |Sorted(polys)|) == PolySum(g, polys, |polys|)
  {
    hide PolySum, OfSign;
    SortedSum(g, polys);
    PolySumConcat(g, OfSign(polys, -1), OfSign(polys, 1));
    PolySumConcat(g, OfSign(polys, -1) + OfSign(polys, 1), OfSign(polys, 0));
  }

  // ---- a permutation keeps sums ----

  ghost function OrderSum(h: int -> int, ord: seq<int>): int {
    if ord == [] then 0 else OrderSum(h, ord[..|ord| - 1]) + h(ord[|ord| - 1])
  }

  lemma {:induction false} OrderSumWithout(h: int -> int, ord: seq<int>, i: nat)
    requires i < |ord|
    ensures OrderSum(h, ord) == OrderSum(h, ord[..i] + ord[i + 1..]) + h(ord[i])
    decreases |ord|
  {
    var n := |ord| - 1;
    if i == n {
      assert ord[..i] + ord[i + 1..] == ord[..n];
    } else {
      OrderSumWithout(h, ord[..n], i);
      var r := ord[..i] + ord[i + 1..];
      assert r[..|r| - 1] == ord[..n][..i] + ord[..n][i + 1..];
      assert r[|r| - 1] == ord[n];
    }
  }

  /** An order in which each index below n comes exactly once. */
  ghost predicate Order(ord: seq<int>, n: nat) {
    (forall v :: 0 <= v < n <==> v in ord) && forall i, j :: 0 <= i < j < |ord| ==> ord[i] != ord[j]
  }

  lemma {:induction false} OrderSumIsRange(h: int -> int, ord: seq<int>, n: nat)
    requires Order(ord, n)
    ensures OrderSum(h, ord) == RangeSum(h, n)
    decreases n
  {
    var first := if ord == [] then 0 else ord[0];
    assert ord == [] || first in ord;
    if n > 0 {
      assert n - 1 in ord;
      var i :| 0 <= i < |ord| && ord[i] == n - 1;
      OrderSumWithout(h, ord, i);
      var r := ord[..i] + ord[i + 1..];
      forall v ensures 0 <= v < n - 1 <==> v in r { OrderWithout(ord, n, i, v); }
      forall a, b | 0 <= a < b < |r| ensures r[a] != r[b] {
        assert r[a] == ord[if a < i then a else a + 1] && r[b] == ord[if b < i then b else b + 1];
      }
      OrderSumIsRange(h, r, n - 1);
    }
  }

  lemma OrderWithout(ord: seq<int>, n: nat, i: nat, v: int)
    requires Order(ord, n) && i < |ord| && ord[i] == n - 1
    ensures 0 <= v < n - 1 <==> v in ord[..i] + ord[i + 1..]
  {
    var r := ord[..i] + ord[i + 1..];
    if 0 <= v < n - 1 {
      assert v in ord;
      var j :| 0 <= j < |ord| && ord[j] == v;
      if j < i { assert r[j] == v; } else { assert r[j - 1] == v; }
    }
    if v in r {
      var j :| 0 <= j < |r| && r[j] == v;
      var c := if j < i then j else j + 1;
      assert ord[c] == v && v in ord;
      if c < i { assert ord[c] != ord[i]; } else { assert ord[i] != ord[c]; }
    }
  }

  ghost function EdgeWeights(g: Measure, polys: seq<seq<Edge>>): int -> int
    requires g.width > 0 && g.height > 0
  {
    i => if 0 <= i < |polys| then EdgeSum(g, polys[i], |polys[i]|) else 0
  }

  lemma {:induction false} RangeIsPolySum(g: Measure, polys: seq<seq<Edge>>, n: nat)
    requires n <= |polys| && g.width > 0 && g.height > 0
    ensures RangeSum(EdgeWeights(g, polys), n) == PolySum(g, polys, n)
  {
    if n > 0 { RangeIsPolySum(g, polys, n - 1); }
  }

  /** Without weight on links, the nodes of a tree weigh as much as their outlines. */
  lemma {:induction false} NodesAreOrder(s: State, width: int, height: int, polys: seq<seq<Edge>>, tree: Forest,
                                         ord: seq<int>, n: nat)
    requires width > 0 && height > 0 && n <= |tree| && |tree| == |ord|
    requires forall k :: 0 <= k < |tree| ==> 0 <= ord[k] < |polys| && tree[k].poly == polys[ord[k]]
    ensures NodeSum(Counting(s, width, height), tree, n) ==
            OrderSum(EdgeWeights(Counting(s, width, height), polys), ord[..n])
  {
    hide EdgeSum, Counting;
    if n > 0 {
      NodesAreOrder(s, width, height, polys, tree, ord, n - 1);
      LinkSumZero(s, width, height, tree[n - 1].links, |tree[n - 1].links|);
      CountingSize(s, width, height);
      assert ord[..n][..n - 1] == ord[..n - 1];
    }
  }

  lemma CountingSize(s: State, width: int, height: int)
    ensures Counting(s, width, height).width == width && Counting(s, width, height).height == height
  {}

  // ---- the traced edges ----

  /** Outlines of part k among the first n entries that pass edge s. */
  ghost function Passing(all: seq<Traced>, k: nat, s: State): int {
    if all == [] then 0
    else
      var e := all[|all| - 1];
      Passing(all[..|all| - 1], k, s) + if e.part == k && s in e.trail then 1 else 0
  }

  lemma {:induction false} FiledSum(m: BlockMap, labels: Labels, all: seq<Traced>, k: nat, s: State)
    requires m.Valid() && labels.Valid() && forall i :: 0 <= i < |all| ==> Entry(m, labels, all[i])
    ensures PolySum(Counting(s, m.width, m.height), FiledUnder(all, k), |FiledUnder(all, k)|) == Passing(all, k, s)
    decreases |all|
  {
    hide Step, Boundary, InPart;
    if all != [] {
      var g := Counting(s, m.width, m.height);
      var rest, e := all[..|all| - 1], all[|all| - 1];
      FiledSum(m, labels, rest, k, s);
      assert Entry(m, labels, e);
      EdgeSumCounts(m, e.poly, e.trail, s, |e.trail|);
      assert e.trail[..|e.trail|] == e.trail;
      if e.part == k {
        PolySumConcat(g, FiledUnder(rest, k), [e.poly]);
        PolySumOne(g, e.poly);
      } else {
        assert FiledUnder(rest, k) + [] == FiledUnder(rest, k);
      }
    }
  }

  lemma {:induction false} PassingNone(all: seq<Traced>, k: nat, s: State)
    requires forall i :: 0 <= i < |all| && s in all[i].trail ==> all[i].part != k
    ensures Passing(all, k, s) == 0
    decreases |all|
  {
    if all != [] { PassingNone(all[..|all| - 1], k, s); }
  }

  lemma {:induction false} PassingOne(all: seq<Traced>, k: nat, s: State, j: nat)
    requires Disjoint(all) && j < |all| && s in all[j].trail && all[j].part == k
    ensures Passing(all, k, s) == 1
    decreases |all|
  {
    var rest := all[..|all| - 1];
    if j == |all| - 1 {
      PassingNone(rest, k, s);
    } else {
      PassingOne(rest, k, s, j);
      assert s !in all[|all| - 1].trail;
    }
  }

  /** Edge s is shown once by the outlines of its own part, and not by those of any other. */
  lemma PassingIs(m: BlockMap, labels: Labels, all: seq<Traced>, k: nat, s: State)
    requires m.Valid() && labels.Valid() && Entries(m, labels, all) && AllTraced(m, all)
    ensures Passing(all, k, s) == if Boundary(m, s) && InPart(labels, s, k) then 1 else 0
  {
    hide Step, Boundary, Follows, InPart;
    forall i | 0 <= i < |all| && s in all[i].trail
      ensures Boundary(m, s) && (all[i].part == k <==> InPart(labels, s, k))
    {
      assert Entry(m, labels, all[i]);
      var j :| 0 <= j < |all[i].trail| && all[i].trail[j] == s;
      OnePart(labels, s, k, all[i].part);
    }
    if Boundary(m, s) && InPart(labels, s, k) {
      assert InAll(all, s);
      var j :| 0 <= j < |all| && s in all[j].trail;
      PassingOne(all, k, s, j);
    } else {
      PassingNone(all, k, s);
    }
  }

  lemma OnePart(labels: Labels, s: State, k: nat, l: nat)
    requires labels.Valid() && InPart(labels, s, l)
    ensures InPart(labels, s, k) <==> k == l
  {}

  // ---- outlines stay near the map ----

  lemma {:induction false} DistinctCount(c: seq<int>)
    requires forall i, j :: 0 <= i < j < |c| ==> c[i] != c[j]
    ensures |set v | v in c| == |c|
  {
    if c != [] {
      var n := |c| - 1;
      DistinctCount(c[..n]);
      assert (set v | v in c) == (set v | v in c[..n]) + {c[n]};
    }
  }

  function Code(s: State, width: int): int { 8 * ScanIndex(s.v, width) + s.d }

  lemma CodeApart(s: State, t: State, width: int, height: int)
    requires width > 0 && height > 0 && 0 <= s.v.x < width && 0 <= s.v.y < height && 0 <= t.v.x < width &&
             0 <= t.v.y < height
    ensures 0 <= Code(s, width) < 8 * (width * height)
    ensures Code(s, width) == Code(t, width) ==> s == t
  {
    CellOfIndex(s.v, width, height);
    CellOfIndex(t.v, width, height);
  }

  /** A trail has no more edges than the map has directions at corners. */
  lemma TrailShort(m: BlockMap, t: seq<State>)
    requires m.Valid() && Trail(m, t)
    ensures |t| <= 8 * (m.width * m.height)
  {
    hide Step, Borders, Code;
    var n := 8 * (m.width * m.height);
    var c := seq(|t|, i requires 0 <= i < |t| => Code(t[i], m.width));
    assert Boundary(m, t[0]);
    CodeApart(t[0], t[0], m.width, m.height);
    forall i, j | 0 <= i < |c| && 0 <= j < |c|
      ensures 0 <= c[i] < n && (i < j ==> c[i] != c[j])
    {
      assert Boundary(m, t[i]) && Boundary(m, t[j]);
      CodeApart(t[i], t[j], m.width, m.height);
    }
    DistinctCount(c);
    RangeCount((set v | v in c), n);
  }

  lemma {:induction false} PosNear(m: BlockMap, poly: seq<Edge>, t: seq<State>, n: int)
    requires m.Valid() && Follows(m, poly, t) && 0 <= n < |t|
    ensures var d := Minus(poly[n].pos, poly[0].pos); -n <= d.x <= n && -n <= d.y <= n
  {
    if n > 0 {
      hide Unit;
      PosNear(m, poly, t, n - 1);
      UnitShort(t[n - 1].d);
      assert poly[n - 1].off == Unit(t[n - 1].d);
    }
  }

  lemma EntryFollows(m: BlockMap, labels: Labels, e: Traced)
    requires m.Valid() && labels.Valid() && Entry(m, labels, e)
    ensures Trail(m, e.trail) && Follows(m, e.poly, e.trail) && |e.poly| == |e.trail| && Anchored(labels, e.poly)
  {}

  lemma PartitionSpreads(m: BlockMap, labels: Labels, seeds: seq<Vec>)
    requires m.Valid() && IsPartition(m, labels, seeds)
    ensures labels.Valid() && labels.width == m.width && labels.height == m.height && Spread(labels)
  {}

  /** An outline does not leave the surroundings of the map. */
  lemma TracedNear(m: BlockMap, labels: Labels, seeds: seq<Vec>, e: Traced, i: nat)
    requires m.Valid() && labels.Valid() && IsPartition(m, labels, seeds) && Entry(m, labels, e) && i < |e.poly|
    ensures var n, p := 11 * (m.width * m.height), e.poly[i].pos; -n <= p.x <= n && -n <= p.y <= n
  {
    EntryFollows(m, labels, e);
    PartitionSpreads(m, labels, seeds);
    hide IsPartition, Entry, Trail, Follows, Spread;
    TrailShort(m, e.trail);
    PosNear(m, e.poly, e.trail, i);
    AreaBounds(m.width, m.height);
    StartNear(labels, e.poly);
  }

  lemma AreaBounds(width: int, height: int)
    requires width > 0 && height > 0
    ensures width <= width * height && height <= width * height
  {
    assert (width - 1) * height >= 0 && width * (height - 1) >= 0;
  }

  lemma StartNear(labels: Labels, poly: seq<Edge>)
    requires labels.Valid() && Spread(labels) && Anchored(labels, poly)
    ensures poly != [] && NearMap(poly[0].pos, labels.width, labels.height, labels.width * labels.height + 1)
  {
    var c :| labels.At(c).Some? && AtCorner(labels.At(c).value.pos, poly);
    hide Spread;
    SpreadBound(labels, c);
  }

  /** The map has at most 10^46 blocks. */
  predicate Mappable(m: BlockMap) { 11 * (m.width * m.height) <= REACH }

  lemma TracedBounded(m: BlockMap, labels: Labels, seeds: seq<Vec>, e: Traced)
    requires m.Valid() && labels.Valid() && IsPartition(m, labels, seeds) && Entry(m, labels, e) && Mappable(m)
    ensures Bounded(e.poly)
  {
    hide IsPartition, Entry;
    forall i | 0 <= i < |e.poly|
      ensures -REACH <= e.poly[i].pos.x <= REACH && -REACH <= e.poly[i].pos.y <= REACH
    {
      TracedNear(m, labels, seeds, e, i);
    }
  }

  /** Every traced outline has what the linking step needs. */
  lemma TracedIsOutline(m: BlockMap, labels: Labels, seeds: seq<Vec>, e: Traced)
    requires m.Valid() && labels.Valid() && IsPartition(m, labels, seeds) && Entry(m, labels, e) && Mappable(m)
    ensures IsOutline(e.poly, m.width, m.height)
  {
    hide IsPartition, Entry, Mappable, Bounded, Heads, GoodOutline;
    TracedBounded(m, labels, seeds, e);
    TracedGood(m, labels, e);
  }

  lemma TracedGood(m: BlockMap, labels: Labels, e: Traced)
    requires m.Valid() && labels.Valid() && Entry(m, labels, e)
    ensures GoodOutline(e.poly, m.width, m.height) && Heads(e.poly)
  {
    hide InPart, Anchored, Boundary, Step, Unit, Heads;
    TracedHeads(m, e.poly, e.trail);
    OutlineCloses(m, labels, e);
    forall i | 0 <= i < |e.poly| - 1
      ensures e.poly[i + 1].pos == Plus(e.poly[i].pos, Unit(e.trail[i].d)) && e.poly[i].off == Unit(e.trail[i].d)
      ensures var d := Minus(e.poly[i + 1].pos, e.poly[i].pos); -1 <= d.x <= 1 && -1 <= d.y <= 1
    {
      UnitShort(e.trail[i].d);
    }
    forall p | 0 < p < |e.poly|
      ensures Congruent(e.poly[p].pos, Plus(e.poly[p - 1].pos, e.poly[p - 1].off), m.width, m.height)
    {}
  }

  lemma UnitShort(d: Dir)
    ensures -1 <= Unit(d).x <= 1 && -1 <= Unit(d).y <= 1
  {}

  /**
   * The polygon into which part k is converted shows each border edge whose block belongs to
   * part k exactly once, and shows no border edge of another part.
   */
  lemma PartShowsItsBorder(m: BlockMap, labels: Labels, partpolys: PartPolys, all: seq<Traced>, k: nat, s: State,
                           f: Vec -> Vec, tree: Forest, slot: seq<(nat, nat)>, ord: seq<int>)
    requires m.Valid() && labels.Valid() && Entries(m, labels, all) && AllTraced(m, all) && Filed(partpolys, all)
    requires k < |partpolys| && LeastTree(Sorted(partpolys[k]), f, tree, slot, ord)
    requires Fits(tree, m.width, m.height) && |tree| > 0 && |tree[0].poly| > 0
    ensures Shown(Visit(tree, 0, tree[0].poly[0].pos, 0), s, m.width, m.height) ==
            if Boundary(m, s) && InPart(labels, s, k) then 1 else 0
  {
    hide Boundary, InPart, Entries, AllTraced, Fits, IsTree, PolySum, NodeSum, EdgeWeights, Counting, Connects, Total;
    hide ForestCost;
    var g := Counting(s, m.width, m.height);
    CountingSize(s, m.width, m.height);
    TreeNonEmpty(tree, slot);
    var sorted := Sorted(partpolys[k]);
    TourConserves(g, tree, slot, tree[0].poly[0].pos, 0);
    NodesAreOrder(s, m.width, m.height, sorted, tree, ord, |tree|);
    assert ord[..|tree|] == ord;
    assert Order(ord, |sorted|);
    OrderSumIsRange(EdgeWeights(g, sorted), ord, |sorted|);
    RangeIsPolySum(g, sorted, |sorted|);
    SortedTotal(g, partpolys[k]);
    EntriesEach(m, labels, all);
    FiledSum(m, labels, all, k, s);
    PassingIs(m, labels, all, k, s);
  }

  lemma TreeNonEmpty(tree: Forest, slot: seq<(nat, nat)>)
    requires IsTree(tree, slot)
    ensures |tree| > 0
  {}

  lemma EntriesEach(m: BlockMap, labels: Labels, all: seq<Traced>)
    requires m.Valid() && labels.Valid() && Entries(m, labels, all)
    ensures forall i :: 0 <= i < |all| ==> Entry(m, labels, all[i])
  {}
}
