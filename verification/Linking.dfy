/** poly_link: outlines of one part are linked by Prim's algorithm and merged by the tour. */
module Linking {
  import opened Torus
  import opened Trace
  import opened ClosestPair
  import opened Tour
  import opened Polynodes
  import opened Spanning

  // ---- distance between outlines ----

  ghost function RowLeast(f: Vec -> Vec, p: seq<Edge>, q: seq<Edge>, k: nat, l: nat): (m: int)
    requires k < |p| && 0 < l <= |q|
    ensures forall j :: 0 <= j < l ==> m <= PairDist(f, p, q, k, j)
    ensures exists j :: 0 <= j < l && m == PairDist(f, p, q, k, j)
  {
    var d := PairDist(f, p, q, k, l - 1);
    if l == 1 then d
    else
      var r := RowLeast(f, p, q, k, l - 1);
      if d < r then d else r
  }

  ghost function Least(f: Vec -> Vec, p: seq<Edge>, q: seq<Edge>, k: nat): (m: int)
    requires 0 < k <= |p| && 0 < |q|
    ensures forall i, j :: 0 <= i < k && 0 <= j < |q| ==> m <= PairDist(f, p, q, i, j)
    ensures exists i, j :: 0 <= i < k && 0 <= j < |q| && m == PairDist(f, p, q, i, j)
  {
    var r := RowLeast(f, p, q, k - 1, |q|);
    if k == 1 then r
    else
      var s := Least(f, p, q, k - 1);
      if r < s then r else s
  }

  /** Squared distance between the closest corners of two outlines. */
  ghost function Weight(f: Vec -> Vec, p: seq<Edge>, q: seq<Edge>): (m: int)
    requires 0 < |p| && 0 < |q|
    ensures forall i, j :: 0 <= i < |p| && 0 <= j < |q| ==> m <= PairDist(f, p, q, i, j)
    ensures exists i, j :: 0 <= i < |p| && 0 <= j < |q| && m == PairDist(f, p, q, i, j)
  {
    Least(f, p, q, |p|)
  }

  lemma WeightSymmetric(f: Vec -> Vec, p: seq<Edge>, q: seq<Edge>)
    requires 0 < |p| && 0 < |q| && Nearest(f)
    ensures Weight(f, p, q) == Weight(f, q, p)
  {
    WeightAtMost(f, p, q);
    WeightAtMost(f, q, p);
  }

  lemma WeightAtMost(f: Vec -> Vec, p: seq<Edge>, q: seq<Edge>)
    requires 0 < |p| && 0 < |q| && Nearest(f)
    ensures Weight(f, p, q) <= Weight(f, q, p)
  {
    hide Weight, PairDist, Nearest;
    var i, j :| 0 <= i < |q| && 0 <= j < |p| && Weight(f, q, p) == PairDist(f, q, p, i, j);
    PairSymmetric(f, q, p, i, j);
  }

  lemma WeightNonNegative(f: Vec -> Vec, p: seq<Edge>, q: seq<Edge>)
    requires 0 < |p| && 0 < |q|
    ensures Weight(f, p, q) >= 0
  {
    var i, j :| 0 <= i < |p| && 0 <= j < |q| && Weight(f, p, q) == PairDist(f, p, q, i, j);
    NormPlus(f(Minus(q[j].pos, p[i].pos)), Vec(0, 0));
  }

  lemma WeightIs(f: Vec -> Vec, p: seq<Edge>, q: seq<Edge>, m: int, k: nat, l: nat)
    requires 0 < |p| && 0 < |q| && k < |p| && l < |q| && m == PairDist(f, p, q, k, l)
    requires forall i, j :: 0 <= i < |p| && 0 <= j < |q| ==> m <= PairDist(f, p, q, i, j)
    ensures Weight(f, p, q) == m
  {
    hide Weight, PairDist;
  }

  /** The offset functions of poly_link, and what they are good for on a map of this size. */
  ghost predicate GoodOffsets(f: Vec -> Vec, width: int, height: int) {
    Nearest(f) && width > 0 && height > 0 && forall v: Vec :: Congruent(f(v), v, width, height)
  }

  /** An outline that can take part: closed on the torus, in small steps. */
  ghost predicate GoodOutline(poly: seq<Edge>, width: int, height: int) {
    width > 0 && height > 0 && Loops(poly, width, height) && SmallSteps(poly)
  }

  lemma OffsetFits(f: Vec -> Vec, v: Vec, off: Vec, width: int, height: int)
    requires GoodOffsets(f, width, height) && (off == f(v) || off == Neg(f(Neg(v))))
    ensures Congruent(off, v, width, height)
  {
    if off != f(v) {
      var w := f(Neg(v));
      NegCongruent(w.x, -v.x, width);
      NegCongruent(w.y, -v.y, height);
      assert Congruent(w, Neg(v), width, height);
    }
  }

  // ---- the best links to the attached outlines ----

  /** What findmin takes for an offset: the function's value, looked at from one end or the other. */
  predicate Taken(f: Vec -> Vec, off: Vec, v: Vec) { off == f(v) || off == Neg(f(Neg(v))) }

  /** The recorded best link of j comes from the attached outline a and is as short as any. */
  ghost predicate BestFrom(j: Polynode, a: Polynode, f: Vec -> Vec, width: int, height: int)
    requires width > 0 && height > 0
    reads j
  {
    var b := j.dist;
    |a.poly| > 0 && |j.poly| > 0 && b.from == a && b.start < |a.poly| && b.index < |j.poly| &&
    b.d == Weight(f, a.poly, j.poly) == Norm2(b.off) &&
    Taken(f, b.off, Minus(j.poly[b.index].pos, a.poly[b.start].pos)) &&
    Congruent(Plus(a.poly[b.start].pos, b.off), j.poly[b.index].pos, width, height)
  }

  /** The best link of j over the first n attached outlines. */
  ghost predicate BestOver(j: Polynode, att: seq<Polynode>, n: nat, f: Vec -> Vec, width: int, height: int)
    requires width > 0 && height > 0 && n <= |att|
    reads j
  {
    |j.poly| > 0 && (forall a :: 0 <= a < n ==> |att[a].poly| > 0) &&
    if n == 0 then j.dist.d == UNLINKED
    else
      (exists a :: 0 <= a < n && BestFrom(j, att[a], f, width, height)) &&
      forall a :: 0 <= a < n ==> j.dist.d <= Weight(f, att[a].poly, j.poly)
  }

  /** One findmin call brings the best link of j up to date with the newest attached outline. */
  method Refresh(j: Polynode, last: Polynode, f: Vec -> Vec, ghost att: seq<Polynode>, ghost width: int,
                 ghost height: int)
    requires att != [] && att[|att| - 1] == last && GoodOffsets(f, width, height)
    requires GoodOutline(last.poly, width, height) && GoodOutline(j.poly, width, height)
    requires BestOver(j, att, |att| - 1, f, width, height) && Weight(f, last.poly, j.poly) < UNLINKED
    modifies j
    ensures BestOver(j, att, |att|, f, width, height)
    ensures j.linkstarts == old(j.linkstarts) && j.linktargets == old(j.linktargets)
  {
    hide Weight, PairDist, Nearest, Norm2, Loops, Congruent;
    ghost var n := |att| - 1;
    BestNonNegative(j, att, n, f, width, height);
    var result := FindMin(last.poly, j.poly, j.dist.d, f);
    if result.Some? {
      var r := result.value;
      WeightIs(f, last.poly, j.poly, r.dist, r.k, r.l);
      var v := Minus(j.poly[r.l].pos, last.poly[r.k].pos);
      OffsetFits(f, v, r.off, width, height);
      LinkLands(last.poly[r.k].pos, j.poly[r.l].pos, r.off, width, height);
      j.dist := Best(r.dist, r.k, r.l, r.off, last);
      assert BestFrom(j, att[n], f, width, height);
    } else {
      NoCloser(f, last.poly, j.poly, j.dist.d);
      assert n > 0;
      ghost var a :| 0 <= a < n && BestFrom(j, att[a], f, width, height);
      assert BestFrom(j, att[a], f, width, height);
    }
  }

  lemma LinkLands(p: Vec, q: Vec, off: Vec, width: int, height: int)
    requires width > 0 && height > 0 && Congruent(off, Minus(q, p), width, height)
    ensures Congruent(Plus(p, off), q, width, height)
  {
    CongruentPlus(off, Minus(q, p), p, width, height);
    assert Plus(off, p) == Plus(p, off) && Plus(Minus(q, p), p) == q;
  }

  lemma BestNonNegative(j: Polynode, att: seq<Polynode>, n: nat, f: Vec -> Vec, width: int, height: int)
    requires width > 0 && height > 0 && n <= |att| && BestOver(j, att, n, f, width, height)
    ensures j.dist.d >= 0
  {
    hide Weight, Norm2, Congruent;
    if n > 0 {
      var a :| 0 <= a < n && BestFrom(j, att[a], f, width, height);
      WeightNonNegative(f, att[a].poly, j.poly);
    }
  }

  lemma NoCloser(f: Vec -> Vec, p: seq<Edge>, q: seq<Edge>, d: int)
    requires 0 < |p| && 0 < |q|
    requires forall k, l :: 0 <= k < |p| && 0 <= l < |q| ==> PairDist(f, p, q, k, l) >= d
    ensures Weight(f, p, q) >= d
  {
    hide Weight, PairDist;
  }

  method RefreshAll(totlist: seq<Polynode>, last: Polynode, f: Vec -> Vec, ghost att: seq<Polynode>, ghost width: int,
                    ghost height: int)
    requires att != [] && att[|att| - 1] == last && GoodOffsets(f, width, height) && Distinct(totlist)
    requires GoodOutline(last.poly, width, height)
    requires forall t :: 0 <= t < |totlist| ==>
               GoodOutline(totlist[t].poly, width, height) && BestOver(totlist[t], att, |att| - 1, f, width, height) &&
               Weight(f, last.poly, totlist[t].poly) < UNLINKED && Emptied(totlist[t])
    modifies set t | 0 <= t < |totlist| :: totlist[t]
    ensures forall t :: 0 <= t < |totlist| ==> BestOver(totlist[t], att, |att|, f, width, height) && Emptied(totlist[t])
  {
    hide Weight, GoodOutline, Nearest, BestOver, Emptied, Congruent;
    for t := 0 to |totlist|
      invariant forall s :: 0 <= s < t ==> BestOver(totlist[s], att, |att|, f, width, height) && Emptied(totlist[s])
      invariant forall s :: t <= s < |totlist| ==>
                BestOver(totlist[s], att, |att| - 1, f, width, height) && Emptied(totlist[s])
    {
      label before:
      Refresh(totlist[t], last, f, att, width, height);
      StillEmpty@before(totlist[t]);
      forall s | 0 <= s < |totlist| && s != t
        ensures BestOver(totlist[s], att, if s < t then |att| else |att| - 1, f, width, height) && Emptied(totlist[s])
      {
        assert totlist[s] != totlist[t] by {
          if s < t { assert totlist[s] != totlist[t]; } else { assert totlist[t] != totlist[s]; }
        }
      }
    }
  }

  twostate lemma StillEmpty(j: Polynode)
    requires old(Emptied(j)) && j.linkstarts == old(j.linkstarts) && j.linktargets == old(j.linktargets)
    ensures Emptied(j)
  {}

  /** The first of the outlines whose recorded link is shortest. */
  method ChooseNearest(totlist: seq<Polynode>) returns (mink: nat)
    requires totlist != [] && forall t :: 0 <= t < |totlist| ==> totlist[t].dist.d < 10 * UNLINKED
    ensures mink < |totlist| && forall t :: 0 <= t < |totlist| ==> totlist[mink].dist.d <= totlist[t].dist.d
    ensures forall t :: 0 <= t < mink ==> totlist[mink].dist.d < totlist[t].dist.d
  {
    var mindist := 10 * UNLINKED;
    mink := 0;
    for t := 0 to |totlist|
      invariant t > 0 ==> mink < t && mindist == totlist[mink].dist.d
      invariant t == 0 ==> mindist == 10 * UNLINKED
      invariant forall s :: 0 <= s < t ==> mindist <= totlist[s].dist.d
      invariant t > 0 ==> forall s :: 0 <= s < mink ==> mindist < totlist[s].dist.d
    {
      if totlist[t].dist.d < mindist {
        mink := t;
        mindist := totlist[t].dist.d;
      }
    }
  }

  // ---- the growing tree ----

  ghost function CostOf(links: seq<TreeLink>, n: nat): int
    requires n <= |links|
  {
    if n == 0 then 0 else CostOf(links, n - 1) + Norm2(links[n - 1].off)
  }

  /** Total squared length of the links of the first n outlines. */
  ghost function ForestCost(f: Forest, n: nat): int
    requires n <= |f|
  {
    if n == 0 then 0 else ForestCost(f, n - 1) + CostOf(f[n - 1].links, |f[n - 1].links|)
  }

  /** Every link is as short as the distance between its two outlines, and an offset between its corners. */
  ghost predicate ShortLinks(f: Vec -> Vec, tree: Forest) {
    WellFormed(tree) &&
    forall i, j :: 0 <= i < |tree| && 0 <= j < |tree[i].links| ==> ShortLink(f, tree, i, tree[i].links[j])
  }

  ghost predicate ShortLink(f: Vec -> Vec, tree: Forest, i: nat, l: TreeLink)
    requires WellFormed(tree) && i < |tree|
  {
    LinkOk(tree, i, l) && Norm2(l.off) == Weight(f, tree[i].poly, tree[l.child].poly) &&
    Taken(f, l.off, Minus(tree[l.child].poly[l.index].pos, tree[i].poly[l.start].pos))
  }

  /** The tree with one more outline, linked from outline p by l. */
  ghost function Grown(f: Forest, p: nat, l: TreeLink, poly: seq<Edge>): Forest
    requires p < |f|
  {
    f[p := Node(f[p].poly, f[p].links + [l])] + [Node(poly, [])]
  }

  lemma {:induction false} CostOfMore(links: seq<TreeLink>, l: TreeLink, n: nat)
    requires n <= |links|
    ensures CostOf(links + [l], n) == CostOf(links, n)
  {
    if n > 0 { CostOfMore(links, l, n - 1); }
  }

  lemma {:induction false} GrownCost(f: Forest, p: nat, l: TreeLink, poly: seq<Edge>, n: nat)
    requires p < |f| && n <= |f|
    ensures ForestCost(Grown(f, p, l, poly), n) == ForestCost(f, n) + if p < n then Norm2(l.off) else 0
  {
    if n > 0 {
      GrownCost(f, p, l, poly, n - 1);
      if n - 1 == p { CostOfMore(f[p].links, l, |f[p].links|); }
    }
  }

  lemma GrownTree(f: Forest, slot: seq<(nat, nat)>, p: nat, l: TreeLink, poly: seq<Edge>, width: int, height: int)
    requires IsTree(f, slot) && Fits(f, width, height) && p < |f| && Loops(poly, width, height)
    requires l.child == |f| && l.start < |f[p].poly| && l.index < |poly|
    requires Congruent(Plus(f[p].poly[l.start].pos, l.off), poly[l.index].pos, width, height)
    ensures var g := Grown(f, p, l, poly); IsTree(g, slot + [(p, |f[p].links|)]) && Fits(g, width, height)
  {
    hide Loops, Congruent;
    var g := Grown(f, p, l, poly);
    forall i, j | 0 <= i < |g| && 0 <= j < |g[i].links|
      ensures LinkOk(g, i, g[i].links[j]) && (slot + [(p, |f[p].links|)])[g[i].links[j].child] == (i, j)
      ensures Congruent(Plus(g[i].poly[g[i].links[j].start].pos, g[i].links[j].off),
              g[g[i].links[j].child].poly[g[i].links[j].index].pos, width, height)
    {
      if i < |f| && j < |f[i].links| {
        assert LinkOk(f, i, f[i].links[j]);
        assert g[i].links[j] == f[i].links[j];
      }
    }
    forall i | 0 <= i < |g| ensures |g[i].poly| > 0 && Loops(g[i].poly, width, height) {
      if i < |f| { FitsLoops(f, width, height, i); } else { LoopsNonEmpty(poly, width, height); }
    }
  }

  lemma GrownShort(f: Vec -> Vec, tree: Forest, p: nat, l: TreeLink, poly: seq<Edge>)
    requires ShortLinks(f, tree) && p < |tree| && |poly| > 0 && WellFormed(Grown(tree, p, l, poly))
    requires l.child == |tree| && l.start < |tree[p].poly| && l.index < |poly|
    requires Norm2(l.off) == Weight(f, tree[p].poly, poly)
    requires Taken(f, l.off, Minus(poly[l.index].pos, tree[p].poly[l.start].pos))
    ensures ShortLinks(f, Grown(tree, p, l, poly))
  {
    hide Weight, Norm2, Taken;
    var g := Grown(tree, p, l, poly);
    forall i, j | 0 <= i < |g| && 0 <= j < |g[i].links|
      ensures ShortLink(f, g, i, g[i].links[j])
    {
      if i < |tree| && j < |tree[i].links| {
        assert ShortLink(f, tree, i, tree[i].links[j]);
        assert g[i].links[j] == tree[i].links[j];
      }
    }
  }

  lemma LoopsNonEmpty(poly: seq<Edge>, width: int, height: int)
    requires width > 0 && height > 0 && Loops(poly, width, height)
    ensures |poly| > 0
  {}

  /** The objects hold the tree. */
  ghost predicate HoldsTree(att: seq<Polynode>, f: Forest)
    reads set k | 0 <= k < |att| :: att[k]
  {
    |att| == |f| && Distinct(att) && forall k :: 0 <= k < |f| ==>
      att[k].poly == f[k].poly && Holds(att[k], att, f[k].links)
  }

  lemma HoldsMore(n: Polynode, att: seq<Polynode>, x: Polynode, links: seq<TreeLink>)
    requires Holds(n, att, links)
    ensures Holds(n, att + [x], links)
  {}

  /** Node n, which holds the given links, gets one more. */
  method AppendLink(n: Polynode, b: Best, mink: Polynode, ghost att: seq<Polynode>, ghost links: seq<TreeLink>)
    requires Holds(n, att, links)
    modifies n
    ensures Holds(n, att + [mink], links + [TreeLink(b.start, |att|, b.index, b.off)])
    ensures n.dist == old(n.dist)
  {
    n.linkstarts := n.linkstarts + [b.start];
    n.linktargets := n.linktargets + [Target(mink, b.index, b.off)];
  }

  lemma GrownAt(f: Forest, p: nat, l: TreeLink, poly: seq<Edge>, k: nat)
    requires p < |f| && k <= |f|
    ensures var g := Grown(f, p, l, poly);
            |g| == |f| + 1 &&
            g[k] == if k == |f| then Node(poly, []) else if k == p then Node(f[p].poly, f[p].links + [l]) else f[k]
  {}

  /** Appends the chosen outline to the one its best link comes from. */
  method Attach(mink: Polynode, ghost p: nat, ghost att: seq<Polynode>, ghost tree: Forest)
    requires HoldsTree(att, tree) && mink !in att && Emptied(mink) && p < |att| && mink.dist.from == att[p]
    modifies set k | 0 <= k < |att| :: att[k]
    ensures HoldsTree(att + [mink],
            Grown(tree, p, TreeLink(mink.dist.start, |att|, mink.dist.index, mink.dist.off), mink.poly))
    ensures mink.dist == old(mink.dist)
  {
    hide Grown, Holds;
    var b := mink.dist;
    ghost var l := TreeLink(b.start, |att|, b.index, b.off);
    ghost var more := Grown(tree, p, l, mink.poly);
    GrownAt(tree, p, l, mink.poly, |att|);
    AppendLink(b.from, b, mink, att, tree[p].links);
    ghost var att' := att + [mink];
    forall k | 0 <= k < |att'|
      ensures att'[k].poly == more[k].poly && Holds(att'[k], att', more[k].links)
    {
      GrownAt(tree, p, l, mink.poly, k);
      if k == |att| {
        EmptyHolds(mink, att');
      } else if k != p {
        assert att[k] != att[p] by { if k < p { assert att[k] != att[p]; } else { assert att[p] != att[k]; } }
        HoldsMore(att[k], att, mink, tree[k].links);
      }
    }
  }

  lemma EmptyHolds(n: Polynode, att: seq<Polynode>)
    requires Emptied(n)
    ensures Holds(n, att, [])
  {}

  /** What attaching does to the tree. */
  lemma AttachedTree(mink: Polynode, p: nat, f: Vec -> Vec, att: seq<Polynode>, tree: Forest, slot: seq<(nat, nat)>,
                     width: int, height: int)
    requires HoldsTree(att, tree) && IsTree(tree, slot) && Fits(tree, width, height) && p < |att|
    requires ShortLinks(f, tree) && BestFrom(mink, att[p], f, width, height) && GoodOutline(mink.poly, width, height)
    ensures var l := TreeLink(mink.dist.start, |att|, mink.dist.index, mink.dist.off);
            var more := Grown(tree, p, l, mink.poly);
            IsTree(more, slot + [(p, |tree[p].links|)]) && Fits(more, width, height) && ShortLinks(f, more) &&
            ForestCost(more, |more|) == ForestCost(tree, |tree|) + mink.dist.d
  {
    hide Weight, Norm2, Loops, Congruent, IsTree, Fits, SmallSteps, Grown, Holds, ShortLinks;
    var l := TreeLink(mink.dist.start, |att|, mink.dist.index, mink.dist.off);
    GrownTree(tree, slot, p, l, mink.poly, width, height);
    GrownCost(tree, p, l, mink.poly, |tree|);
    TreeWellFormed(Grown(tree, p, l, mink.poly), slot + [(p, |tree[p].links|)]);
    GrownShort(f, tree, p, l, mink.poly);
    GrownAt(tree, p, l, mink.poly, |tree|);
  }

  lemma TreeWellFormed(tree: Forest, slot: seq<(nat, nat)>)
    requires IsTree(tree, slot)
    ensures WellFormed(tree)
  {}

  // ---- minimality ----

  /** Distances between outlines, by index. */
  ghost function Distances(f: Vec -> Vec, polys: seq<seq<Edge>>): (int, int) -> int {
    (a, b) =>
      if 0 <= a < |polys| && 0 <= b < |polys| && |polys[a]| > 0 && |polys[b]| > 0
      then Weight(f, polys[a], polys[b]) else 0
  }

  ghost function Polys(nodes: seq<Polynode>): (r: seq<seq<Edge>>)
    ensures |r| == |nodes| && forall i :: 0 <= i < |nodes| ==> r[i] == nodes[i].poly
  {
    seq(|nodes|, i requires 0 <= i < |nodes| => nodes[i].poly)
  }

  /** What is left of the link set can be finished off at the price already saved. */
  ghost predicate CheapFor(links: set<Link>, w: (int, int) -> int, n: nat, core: set<int>, cost: int) {
    exists fewer :: fewer <= links && Connects(fewer, core, n) && Total(fewer, w) + cost <= Total(links, w)
  }

  /** No connecting link set is cheaper than cost plus what it still needs beyond the core. */
  ghost predicate Cheap(w: (int, int) -> int, n: nat, root: int, core: set<int>, cost: int) {
    forall links: set<Link> :: Within(links, n) && Connects(links, {root}, n) ==> CheapFor(links, w, n, core, cost)
  }

  lemma CheapStart(w: (int, int) -> int, n: nat, root: int)
    ensures Cheap(w, n, root, {root}, 0)
  {
    hide Connects, Total;
    forall links: set<Link> | Within(links, n) && Connects(links, {root}, n)
      ensures CheapFor(links, w, n, {root}, 0)
    {
      assert links <= links;
    }
  }

  lemma CheapGrows(w: (int, int) -> int, n: nat, root: int, core: set<int>, cost: int, v: int, m: int)
    requires Cheap(w, n, root, core, cost) && 0 <= v < n && v !in core
    requires forall a, b :: a in core && 0 <= b < n && b !in core ==> w(a, b) >= m && w(b, a) >= m
    ensures Cheap(w, n, root, core + {v}, cost + m)
  {
    hide Connects, Total;
    forall links: set<Link> | Within(links, n) && Connects(links, {root}, n)
      ensures CheapFor(links, w, n, core + {v}, cost + m)
    {
      assert CheapFor(links, w, n, core, cost);
      var fewer :| fewer <= links && Connects(fewer, core, n) && Total(fewer, w) + cost <= Total(links, w);
      var least := Exchange(fewer, core, n, v, m, w);
    }
  }

  lemma CheapEnd(w: (int, int) -> int, n: nat, root: int, core: set<int>, cost: int, links: set<Link>)
    requires Cheap(w, n, root, core, cost) && Within(links, n) && Connects(links, {root}, n)
    requires forall a, b :: 0 <= a < n && 0 <= b < n ==> w(a, b) >= 0
    ensures cost <= Total(links, w)
  {
    hide Connects;
    assert CheapFor(links, w, n, core, cost);
    var fewer :| fewer <= links && Connects(fewer, core, n) && Total(fewer, w) + cost <= Total(links, w);
    TotalNonNegative(fewer, w);
  }

  // ---- the loop ----

  /** The indices below n are split into those attached, in order, and those remaining. */
  ghost predicate Split(n: nat, ord: seq<int>, rem: seq<int>) {
    (forall v :: 0 <= v < n <==> v in ord || v in rem) &&
    (forall i, j :: 0 <= i < j < |ord| ==> ord[i] != ord[j]) &&
    (forall i, j :: 0 <= i < j < |rem| ==> rem[i] != rem[j]) &&
    forall v :: v in ord ==> v !in rem
  }

  ghost predicate Picks(nodes: seq<Polynode>, part: seq<Polynode>, ids: seq<int>) {
    |part| == |ids| && forall k :: 0 <= k < |ids| ==> 0 <= ids[k] < |nodes| && part[k] == nodes[ids[k]]
  }

  ghost predicate GoodNodes(nodes: seq<Polynode>, f: Vec -> Vec, width: int, height: int) {
    Distinct(nodes) && GoodOffsets(f, width, height) &&
    (forall i :: 0 <= i < |nodes| ==> |nodes[i].poly| > 0 && GoodOutline(nodes[i].poly, width, height)) &&
    forall i, j :: 0 <= i < |nodes| && 0 <= j < |nodes| ==> Weight(f, nodes[i].poly, nodes[j].poly) < UNLINKED
  }

  ghost function Core(ord: seq<int>): set<int> { set v | v in ord }

  /** Loop state: att holds a tree; links to all but the newest upto attached outlines are known. */
  ghost predicate Growing(nodes: seq<Polynode>, f: Vec -> Vec, width: int, height: int, ord: seq<int>, rem: seq<int>,
                          att: seq<Polynode>, totlist: seq<Polynode>, tree: Forest, slot: seq<(nat, nat)>, upto: nat)
    requires width > 0 && height > 0
    reads set k | 0 <= k < |att| :: att[k], set k | 0 <= k < |totlist| :: totlist[k]
  {
    Split(|nodes|, ord, rem) && Picks(nodes, att, ord) && Picks(nodes, totlist, rem) && att != [] && upto <= |att| &&
    HoldsTree(att, tree) && IsTree(tree, slot) && Fits(tree, width, height) && ShortLinks(f, tree) &&
    forall t :: 0 <= t < |totlist| ==> Emptied(totlist[t]) && BestOver(totlist[t], att, upto, f, width, height)
  }

  lemma PicksApart(nodes: seq<Polynode>, ord: seq<int>, rem: seq<int>, att: seq<Polynode>, totlist: seq<Polynode>)
    requires Distinct(nodes) && Split(|nodes|, ord, rem) && Picks(nodes, att, ord) && Picks(nodes, totlist, rem)
    ensures Distinct(totlist) && forall t :: 0 <= t < |totlist| ==> totlist[t] !in att
  {
    forall a, b | 0 <= a < b < |totlist| ensures totlist[a] != totlist[b] {
      NodesApart(nodes, rem[a], rem[b]);
    }
    forall t, k | 0 <= t < |totlist| && 0 <= k < |att| ensures totlist[t] != att[k] {
      assert rem[t] in rem && ord[k] in ord;
      NodesApart(nodes, rem[t], ord[k]);
    }
  }

  lemma NodesApart(nodes: seq<Polynode>, a: int, b: int)
    requires Distinct(nodes) && 0 <= a < |nodes| && 0 <= b < |nodes| && a != b
    ensures nodes[a] != nodes[b]
  {
    if a < b { assert nodes[a] != nodes[b]; } else { assert nodes[b] != nodes[a]; }
  }

  /** Every link across the border of the core is at least as long as the shortest recorded one. */
  lemma CrossingLong(nodes: seq<Polynode>, f: Vec -> Vec, width: int, height: int, ord: seq<int>, rem: seq<int>,
                     att: seq<Polynode>, totlist: seq<Polynode>, m: int, a: int, b: int)
    requires GoodNodes(nodes, f, width, height) && Split(|nodes|, ord, rem) && Picks(nodes, att, ord) &&
             Picks(nodes, totlist, rem)
    requires att != [] && a in ord && b in rem
    requires forall t :: 0 <= t < |totlist| ==>
             BestOver(totlist[t], att, |att|, f, width, height) && m <= totlist[t].dist.d
    ensures 0 <= a < |nodes| && 0 <= b < |nodes|
    ensures Weight(f, nodes[a].poly, nodes[b].poly) >= m && Weight(f, nodes[b].poly, nodes[a].poly) >= m
  {
    hide Weight, GoodOutline, Nearest, Congruent;
    var k :| 0 <= k < |ord| && ord[k] == a;
    var t :| 0 <= t < |rem| && rem[t] == b;
    assert totlist[t] == nodes[b] && att[k] == nodes[a];
    assert BestOver(totlist[t], att, |att|, f, width, height);
    WeightSymmetric(f, nodes[a].poly, nodes[b].poly);
  }

  /** Removing the k-th remaining index and appending it to the attached ones. */
  lemma SplitMoves(n: nat, ord: seq<int>, rem: seq<int>, k: nat)
    requires Split(n, ord, rem) && k < |rem|
    ensures Split(n, ord + [rem[k]], rem[..k] + rem[k + 1..])
    ensures Core(ord + [rem[k]]) == Core(ord) + {rem[k]} && rem[k] !in Core(ord) && 0 <= rem[k] < n
  {
    var v := rem[k];
    var ord', rem' := ord + [v], rem[..k] + rem[k + 1..];
    forall u ensures u in rem <==> u == v || u in rem' {
      if u in rem {
        var i :| 0 <= i < |rem| && rem[i] == u;
        if i < k { assert rem'[i] == u; } else if i > k { assert rem'[i - 1] == u; }
      }
    }
    forall i | 0 <= i < |rem'| ensures rem'[i] != v {
      if i < k { assert rem[i] != rem[k]; } else { assert rem[k] != rem[i + 1]; }
    }
    forall u ensures u in ord' <==> u in ord || u == v {
      if u in ord {
        var i :| 0 <= i < |ord| && ord[i] == u;
        assert ord'[i] == u;
      }
      assert ord'[|ord|] == v;
    }
    assert v in rem;
    forall i, j | 0 <= i < j < |ord'| ensures ord'[i] != ord'[j] {
      if j == |ord| { assert ord[i] in ord; }
    }
    forall i, j | 0 <= i < j < |rem'| ensures rem'[i] != rem'[j] {
      assert rem'[i] == rem[if i < k then i else i + 1] && rem'[j] == rem[if j < k then j else j + 1];
    }
  }

  lemma PicksMove(nodes: seq<Polynode>, ord: seq<int>, rem: seq<int>, att: seq<Polynode>, totlist: seq<Polynode>,
                  k: nat)
    requires Picks(nodes, att, ord) && Picks(nodes, totlist, rem) && k < |rem|
    ensures Picks(nodes, att + [totlist[k]], ord + [rem[k]])
    ensures Picks(nodes, totlist[..k] + totlist[k + 1..], rem[..k] + rem[k + 1..])
  {}

  lemma CoreGrows(nodes: seq<Polynode>, f: Vec -> Vec, width: int, height: int, ord: seq<int>, rem: seq<int>,
                  att: seq<Polynode>, totlist: seq<Polynode>, root: int, cost: int, k: nat)
    requires GoodNodes(nodes, f, width, height) && Split(|nodes|, ord, rem) && Picks(nodes, att, ord) &&
             Picks(nodes, totlist, rem)
    requires att != [] && k < |totlist|
    requires forall t :: 0 <= t < |totlist| ==>
             BestOver(totlist[t], att, |att|, f, width, height) && totlist[k].dist.d <= totlist[t].dist.d
    requires Cheap(Distances(f, Polys(nodes)), |nodes|, root, Core(ord), cost)
    ensures Cheap(Distances(f, Polys(nodes)), |nodes|, root, Core(ord + [rem[k]]), cost + totlist[k].dist.d)
  {
    hide Weight, GoodOutline, Nearest, Congruent, Cheap, BestOver;
    var w := Distances(f, Polys(nodes));
    var m := totlist[k].dist.d;
    SplitMoves(|nodes|, ord, rem, k);
    forall a, b | a in Core(ord) && 0 <= b < |nodes| && b !in Core(ord)
      ensures w(a, b) >= m && w(b, a) >= m
    {
      CrossingLong(nodes, f, width, height, ord, rem, att, totlist, m, a, b);
    }
    CheapGrows(w, |nodes|, root, Core(ord), cost, rem[k], m);
  }

  lemma GoodPick(nodes: seq<Polynode>, f: Vec -> Vec, width: int, height: int, part: seq<Polynode>, ids: seq<int>,
                 k: nat)
    requires GoodNodes(nodes, f, width, height) && Picks(nodes, part, ids) && k < |part|
    ensures |part[k].poly| > 0 && GoodOutline(part[k].poly, width, height) && part[k] in nodes
  {
    assert nodes[ids[k]] == part[k];
  }

  lemma GoodPair(nodes: seq<Polynode>, f: Vec -> Vec, width: int, height: int, a: Polynode, b: Polynode)
    requires GoodNodes(nodes, f, width, height) && a in nodes && b in nodes
    ensures |a.poly| > 0 && |b.poly| > 0 && Weight(f, a.poly, b.poly) < UNLINKED
  {
    hide Weight, GoodOutline, GoodOffsets;
    var i :| 0 <= i < |nodes| && nodes[i] == a;
    var j :| 0 <= j < |nodes| && nodes[j] == b;
  }

  lemma BestOverMore(j: Polynode, att: seq<Polynode>, x: Polynode, f: Vec -> Vec, width: int, height: int)
    requires width > 0 && height > 0 && BestOver(j, att, |att|, f, width, height)
    ensures BestOver(j, att + [x], |att|, f, width, height)
  {
    hide Weight, BestFrom;
    if |att| > 0 {
      var a :| 0 <= a < |att| && BestFrom(j, att[a], f, width, height);
      assert (att + [x])[a] == att[a];
    }
  }

  /** Refreshed, every remaining outline has a real link. */
  lemma BestLinked(nodes: seq<Polynode>, f: Vec -> Vec, width: int, height: int, j: Polynode, att: seq<Polynode>,
                   ord: seq<int>)
    returns (p: nat)
    requires width > 0 && height > 0 && GoodNodes(nodes, f, width, height) && j in nodes && Picks(nodes, att, ord)
    requires att != [] && BestOver(j, att, |att|, f, width, height)
    ensures p < |att| && BestFrom(j, att[p], f, width, height) && j.dist.from == att[p] && j.dist.d < UNLINKED
  {
    hide Weight, GoodNodes, Congruent, Norm2;
    p :| 0 <= p < |att| && BestFrom(j, att[p], f, width, height);
    GoodPick(nodes, f, width, height, att, ord, p);
    GoodPair(nodes, f, width, height, att[p], j);
  }

  /** First half of a pass: refresh the recorded links and choose the nearest outline. */
  method PickNearest(nodes: seq<Polynode>, f: Vec -> Vec, ghost width: int, ghost height: int, totlist: seq<Polynode>,
                     last: Polynode,
                     ghost att: seq<Polynode>, ghost ord: seq<int>, ghost rem: seq<int>, ghost tree: Forest,
                     ghost slot: seq<(nat, nat)>)
    returns (k: nat)
    requires width > 0 && height > 0 && GoodNodes(nodes, f, width, height) && totlist != []
    requires att != [] && Growing(nodes, f, width, height, ord, rem, att, totlist, tree, slot, |att| - 1)
    requires att[|att| - 1] == last
    modifies set t | 0 <= t < |totlist| :: totlist[t]
    ensures Growing(nodes, f, width, height, ord, rem, att, totlist, tree, slot, |att|)
    ensures k < |totlist| && forall t :: 0 <= t < |totlist| ==> totlist[k].dist.d <= totlist[t].dist.d
  {
    hide GoodNodes, Split, IsTree, Fits, ShortLinks, BestOver, GoodOutline, Weight, Nearest, Congruent, Holds, Emptied;
    hide Listed;
    GoodDistinct(nodes, f, width, height);
    PicksApart(nodes, ord, rem, att, totlist);
    RefreshReady(nodes, f, width, height, ord, rem, att, totlist, last);
    RefreshAll(totlist, last, f, att, width, height);
    assert HoldsTree(att, tree);
    forall t | 0 <= t < |totlist| ensures totlist[t].dist.d < 10 * UNLINKED {
      GoodPick(nodes, f, width, height, totlist, rem, t);
      var p := BestLinked(nodes, f, width, height, totlist[t], att, ord);
    }
    k := ChooseNearest(totlist);
  }

  /** Second half: attach the outline with the shortest recorded link. */
  method AttachNearest(nodes: seq<Polynode>, f: Vec -> Vec, ghost width: int, ghost height: int, totlist: seq<Polynode>,
                       k: nat,
                       ghost att: seq<Polynode>, ghost ord: seq<int>, ghost rem: seq<int>, ghost tree: Forest,
                       ghost slot: seq<(nat, nat)>)
    returns (left: seq<Polynode>, ghost tree': Forest, ghost slot': seq<(nat, nat)>)
    requires width > 0 && height > 0 && GoodNodes(nodes, f, width, height)
    requires att != [] && Growing(nodes, f, width, height, ord, rem, att, totlist, tree, slot, |att|)
    requires k < |totlist| == |rem| && forall t :: 0 <= t < |totlist| ==> totlist[k].dist.d <= totlist[t].dist.d
    modifies set i | 0 <= i < |att| :: att[i]
    ensures left == totlist[..k] + totlist[k + 1..]
    ensures Growing(nodes, f, width, height, ord + [rem[k]], rem[..k] + rem[k + 1..], att + [totlist[k]], left, tree',
                    slot', |att|)
    ensures ForestCost(tree', |tree'|) == ForestCost(tree, |tree|) + old(totlist[k].dist.d)
  {
    hide GoodNodes, Split, IsTree, Fits, ShortLinks, BestOver, ForestCost, GoodOutline, Weight;
    hide Nearest, Congruent, Holds, Grown, Emptied, Listed;
    GoodDistinct(nodes, f, width, height);
    PicksApart(nodes, ord, rem, att, totlist);
    var mink := totlist[k];
    GoodPick(nodes, f, width, height, totlist, rem, k);
    ghost var p := BestLinked(nodes, f, width, height, mink, att, ord);
    AttachedTree(mink, p, f, att, tree, slot, width, height);
    ghost var l := TreeLink(mink.dist.start, |att|, mink.dist.index, mink.dist.off);
    Attach(mink, p, att, tree);
    SplitMoves(|nodes|, ord, rem, k);
    PicksMove(nodes, ord, rem, att, totlist, k);
    tree', slot' := Grown(tree, p, l, mink.poly), slot + [(p, |tree[p].links|)];
    left := totlist[..k] + totlist[k + 1..];
    forall t | 0 <= t < |left|
      ensures Emptied(left[t]) && BestOver(left[t], att + [mink], |att|, f, width, height)
    {
      assert left[t] == totlist[if t < k then t else t + 1];
      BestOverMore(left[t], att, mink, f, width, height);
    }
  }

  /** One pass: refresh the recorded links, choose the nearest outline, attach it. */
  method PrimStep(nodes: seq<Polynode>, f: Vec -> Vec, ghost width: int, ghost height: int, totlist: seq<Polynode>,
                  last: Polynode,
                  ghost att: seq<Polynode>, ghost ord: seq<int>, ghost rem: seq<int>, ghost tree: Forest,
                  ghost slot: seq<(nat, nat)>)
    returns (left: seq<Polynode>, newest: Polynode,
             ghost att': seq<Polynode>, ghost ord': seq<int>, ghost rem': seq<int>, ghost tree': Forest,
             ghost slot': seq<(nat, nat)>)
    requires width > 0 && height > 0 && GoodNodes(nodes, f, width, height) && totlist != []
    requires att != [] && Growing(nodes, f, width, height, ord, rem, att, totlist, tree, slot, |att| - 1)
    requires att[|att| - 1] == last
    requires Cheap(Distances(f, Polys(nodes)), |nodes|, |nodes| - 1, Core(ord), ForestCost(tree, |tree|))
    modifies set i | 0 <= i < |nodes| :: nodes[i]
    ensures att' != [] && Growing(nodes, f, width, height, ord', rem', att', left, tree', slot', |att'| - 1)
    ensures att'[|att'| - 1] == newest && att'[0] == att[0] && |left| == |totlist| - 1 && ord <= ord'
    ensures Cheap(Distances(f, Polys(nodes)), |nodes|, |nodes| - 1, Core(ord'), ForestCost(tree', |tree'|))
  {
    hide Cheap, Distances, GoodNodes, Split, IsTree, Fits, ShortLinks, BestOver, Core, ForestCost, GoodOutline, Weight;
    hide Nearest, Congruent, Holds, HoldsTree, Emptied;
    PicksWithin(nodes, totlist, rem);
    PicksWithin(nodes, att, ord);
    var k := PickNearest(nodes, f, width, height, totlist, last, att, ord, rem, tree, slot);
    CoreGrows(nodes, f, width, height, ord, rem, att, totlist, |nodes| - 1, ForestCost(tree, |tree|), k);
    newest := totlist[k];
    left, tree', slot' := AttachNearest(nodes, f, width, height, totlist, k, att, ord, rem, tree, slot);
    att', ord', rem' := att + [newest], ord + [rem[k]], rem[..k] + rem[k + 1..];
  }

  lemma GoodDistinct(nodes: seq<Polynode>, f: Vec -> Vec, width: int, height: int)
    requires GoodNodes(nodes, f, width, height)
    ensures Distinct(nodes)
  {}

  lemma PicksWithin(nodes: seq<Polynode>, part: seq<Polynode>, ids: seq<int>)
    requires Picks(nodes, part, ids)
    ensures forall k :: 0 <= k < |part| ==> part[k] in nodes
  {}

  lemma RefreshReady(nodes: seq<Polynode>, f: Vec -> Vec, width: int, height: int, ord: seq<int>, rem: seq<int>,
                     att: seq<Polynode>, totlist: seq<Polynode>, last: Polynode)
    requires GoodNodes(nodes, f, width, height) && Picks(nodes, att, ord) && Picks(nodes, totlist, rem)
    requires att != [] && att[|att| - 1] == last
    ensures GoodOffsets(f, width, height) && GoodOutline(last.poly, width, height) && |last.poly| > 0
    ensures forall t :: 0 <= t < |totlist| ==>
              |totlist[t].poly| > 0 && GoodOutline(totlist[t].poly, width, height) &&
              Weight(f, last.poly, totlist[t].poly) < UNLINKED
  {
    hide Weight, GoodOutline, GoodOffsets;
    GoodPick(nodes, f, width, height, att, ord, |att| - 1);
    forall t | 0 <= t < |totlist|
      ensures |totlist[t].poly| > 0 && GoodOutline(totlist[t].poly, width, height) &&
              Weight(f, last.poly, totlist[t].poly) < UNLINKED
    {
      GoodPick(nodes, f, width, height, totlist, rem, t);
      GoodPair(nodes, f, width, height, last, totlist[t]);
    }
  }

  lemma GrowingStart(nodes: seq<Polynode>, f: Vec -> Vec, width: int, height: int, rem: seq<int>)
    requires nodes != [] && width > 0 && height > 0 && GoodNodes(nodes, f, width, height)
    requires forall i :: 0 <= i < |nodes| ==> Emptied(nodes[i]) && nodes[i].dist.d == UNLINKED
    requires |rem| == |nodes| - 1 && forall i :: 0 <= i < |rem| ==> rem[i] == i
    ensures var res := nodes[|nodes| - 1]; var tree := [Node(res.poly, [])];
            Growing(nodes, f, width, height, [|nodes| - 1], rem, [res], nodes[..|nodes| - 1], tree, [(0, 0)], 0) &&
            Core([|nodes| - 1]) == {|nodes| - 1} && ForestCost(tree, 1) == 0
  {
    hide Weight, Congruent;
    var n := |nodes|;
    var res := nodes[n - 1];
    var tree := [Node(res.poly, [])];
    forall v ensures 0 <= v < n <==> v in [n - 1] || v in rem {
      if 0 <= v < n - 1 { assert rem[v] == v; }
    }
    assert CostOf([], 0) == 0 && ForestCost(tree, 0) == 0;
    assert Holds(res, [res], tree[0].links);
    assert GoodOutline(nodes[n - 1].poly, width, height);
  }

  /** Prim's loop: the tree it ends with has only shortest links, and no connecting set of links is cheaper. */
  method LinkAll(nodes: seq<Polynode>, f: Vec -> Vec, ghost width: int, ghost height: int)
    returns (res: Polynode, ghost att: seq<Polynode>, ghost ord: seq<int>, ghost tree: Forest,
             ghost slot: seq<(nat, nat)>)
    requires nodes != [] && width > 0 && height > 0 && GoodNodes(nodes, f, width, height)
    requires forall i :: 0 <= i < |nodes| ==> Emptied(nodes[i]) && nodes[i].dist.d == UNLINKED
    modifies set i | 0 <= i < |nodes| :: nodes[i]
    ensures Split(|nodes|, ord, []) && Picks(nodes, att, ord) && att != [] && res == att[0] == nodes[|nodes| - 1]
    ensures HoldsTree(att, tree) && IsTree(tree, slot) && Fits(tree, width, height) && ShortLinks(f, tree)
    ensures Cheap(Distances(f, Polys(nodes)), |nodes|, |nodes| - 1, Core(ord), ForestCost(tree, |tree|)) &&
            ord[0] == |nodes| - 1
  {
    hide Cheap, Distances, GoodNodes, IsTree, Fits, ShortLinks, BestOver, Core, ForestCost, Weight;
    ghost var n := |nodes|;
    ghost var w := Distances(f, Polys(nodes));
    ghost var rem: seq<int> := seq(n - 1, i => i);
    var totlist := nodes[..|nodes| - 1];
    res := nodes[|nodes| - 1];
    var last := res;
    att, ord, tree, slot := [res], [n - 1], [Node(res.poly, [])], [(0, 0)];
    CheapStart(w, n, n - 1);
    GrowingStart(nodes, f, width, height, rem);
    while totlist != []
      invariant att != [] && Growing(nodes, f, width, height, ord, rem, att, totlist, tree, slot, |att| - 1)
      invariant att[|att| - 1] == last && att[0] == res && ord != [] && ord[0] == n - 1
      invariant Cheap(w, n, n - 1, Core(ord), ForestCost(tree, |tree|))
      decreases |totlist|
    {
      hide Cheap, Distances, Growing, GoodNodes, Split, Picks, HoldsTree, IsTree, Fits, ShortLinks, BestOver, Emptied;
      hide Core, ForestCost;
      totlist, last, att, ord, rem, tree, slot :=
        PrimStep(nodes, f, width, height, totlist, last, att, ord, rem, tree, slot);
    }
    assert |rem| == 0;
  }
}
