/** The links of a grown tree as a set: it connects all outlines and costs what the tree costs. */
module TreeLinks {
  import opened Torus
  import opened Tour
  import opened Spanning
  import opened Linking

  /** ord lists the outlines in the order of the tree's nodes, each once. */
  ghost predicate Orders(tree: Forest, slot: seq<(nat, nat)>, ord: seq<int>) {
    IsTree(tree, slot) && |ord| == |tree| && forall i, j :: 0 <= i < j < |ord| ==> ord[i] != ord[j]
  }

  /** The links to nodes 1 to n - 1, from parent to child. */
  ghost function LinksTo(slot: seq<(nat, nat)>, ord: seq<int>, n: nat): set<Link>
    requires n <= |slot| == |ord| && forall k :: 0 < k < |slot| ==> slot[k].0 < |slot|
  {
    set k | 0 < k < n :: (ord[slot[k].0], ord[k])
  }

  lemma TreeShape(tree: Forest, slot: seq<(nat, nat)>)
    requires IsTree(tree, slot)
    ensures WellFormed(tree) && |slot| == |tree| > 0 && forall k :: 0 < k < |slot| ==> slot[k].0 < |slot|
  {}

  lemma {:induction false} LinksWithin(tree: Forest, slot: seq<(nat, nat)>, ord: seq<int>, n: nat)
    requires Orders(tree, slot, ord) && forall k :: 0 <= k < |ord| ==> 0 <= ord[k] < n
    ensures Within(LinksTo(slot, ord, |tree|), n)
  {
    TreeShape(tree, slot);
    hide IsTree;
  }

  lemma ParentBefore(tree: Forest, slot: seq<(nat, nat)>, k: nat)
    requires IsTree(tree, slot) && 0 < k < |tree|
    ensures slot[k].0 < k
  {
    assert LinkOk(tree, slot[k].0, tree[slot[k].0].links[slot[k].1]);
  }

  lemma JoinsMore(links: set<Link>, core: set<int>, u: int, v: int)
    requires Joins(links, core, u) && (u, v) in links
    ensures Joins(links, core, v)
  {
    var p :| WalkTo(links, core, p, u);
    var q := [v] + p;
    forall i | 0 <= i < |q| - 1
      ensures Linked(links, q[i], q[i + 1])
    {
      if i > 0 { assert Linked(links, p[i - 1], p[i]); }
    }
    assert WalkTo(links, core, q, v);
  }

  /** Every node is joined to the root. */
  lemma {:induction false} NodeJoins(tree: Forest, slot: seq<(nat, nat)>, ord: seq<int>, k: nat)
    requires Orders(tree, slot, ord) && k < |tree|
    ensures Joins(LinksTo(slot, ord, |tree|), {ord[0]}, ord[k])
    decreases k
  {
    var links := LinksTo(slot, ord, |tree|);
    if k == 0 {
      assert WalkTo(links, {ord[0]}, [ord[0]], ord[0]);
    } else {
      ParentBefore(tree, slot, k);
      NodeJoins(tree, slot, ord, slot[k].0);
      assert (ord[slot[k].0], ord[k]) in links;
      JoinsMore(links, {ord[0]}, ord[slot[k].0], ord[k]);
    }
  }

  /** The length of the link to node k. */
  ghost function LinkTo(w: (int, int) -> int, slot: seq<(nat, nat)>, ord: seq<int>): int -> int
    requires |slot| == |ord| && forall k :: 0 < k < |slot| ==> slot[k].0 < |slot|
  {
    k => if 0 < k < |slot| then w(ord[slot[k].0], ord[k]) else 0
  }

  lemma {:induction false} LinksTotal(tree: Forest, slot: seq<(nat, nat)>, ord: seq<int>, w: (int, int) -> int, n: nat)
    requires Orders(tree, slot, ord) && n <= |tree|
    ensures Total(LinksTo(slot, ord, n), w) == RangeSum(LinkTo(w, slot, ord), n)
  {
    if n <= 1 {
      assert LinksTo(slot, ord, n) == {};
      assert RangeSum(LinkTo(w, slot, ord), 0) == 0;
    } else {
      LinksTotal(tree, slot, ord, w, n - 1);
      var less, more, e := LinksTo(slot, ord, n - 1), LinksTo(slot, ord, n), (ord[slot[n - 1].0], ord[n - 1]);
      assert e in more;
      assert e !in less;
      assert more - {e} == less;
      TotalWithout(more, w, e);
    }
  }

  /** Distances given by index are those of the nodes. */
  ghost predicate Weighs(f: Vec -> Vec, tree: Forest, ord: seq<int>, w: (int, int) -> int) {
    WellFormed(tree) && |ord| == |tree| &&
    forall a, b :: 0 <= a < |tree| && 0 <= b < |tree| ==> w(ord[a], ord[b]) == Weight(f, tree[a].poly, tree[b].poly)
  }

  lemma LinkLength(f: Vec -> Vec, tree: Forest, slot: seq<(nat, nat)>, ord: seq<int>, w: (int, int) -> int, i: nat,
                   j: nat)
    requires Orders(tree, slot, ord) && ShortLinks(f, tree) && Weighs(f, tree, ord, w) && i < |tree| &&
             j < |tree[i].links|
    ensures Norm2(tree[i].links[j].off) == LinkTo(w, slot, ord)(tree[i].links[j].child)
  {
    hide Weight, Norm2;
    var l := tree[i].links[j];
    assert ShortLink(f, tree, i, l);
    assert slot[l.child] == (i, j);
  }

  /** t gives the squared length of the link to each child. */
  ghost predicate Lengths(tree: Forest, t: int -> int) {
    forall i, j :: 0 <= i < |tree| && 0 <= j < |tree[i].links| ==>
      Norm2(tree[i].links[j].off) == t(tree[i].links[j].child)
  }

  lemma {:induction false} CostIsChildSum(tree: Forest, t: int -> int, i: nat, n: nat)
    requires Lengths(tree, t) && i < |tree| && n <= |tree[i].links|
    ensures CostOf(tree[i].links, n) == ChildSum(tree, i, t, n)
  {
    hide Norm2;
    if n > 0 { CostIsChildSum(tree, t, i, n - 1); }
  }

  lemma {:induction false} ForestIsChildSum(tree: Forest, t: int -> int, n: nat)
    requires Lengths(tree, t) && n <= |tree|
    ensures ForestCost(tree, n) == AllChildSum(tree, t, n)
  {
    hide Lengths;
    if n > 0 {
      ForestIsChildSum(tree, t, n - 1);
      CostIsChildSum(tree, t, n - 1, |tree[n - 1].links|);
    }
  }

  lemma TreeLengths(f: Vec -> Vec, tree: Forest, slot: seq<(nat, nat)>, ord: seq<int>, w: (int, int) -> int)
    requires Orders(tree, slot, ord) && ShortLinks(f, tree) && Weighs(f, tree, ord, w)
    ensures Lengths(tree, LinkTo(w, slot, ord))
  {
    hide Norm2, ShortLinks, Weighs, LinkTo;
    forall i, j | 0 <= i < |tree| && 0 <= j < |tree[i].links|
      ensures Norm2(tree[i].links[j].off) == LinkTo(w, slot, ord)(tree[i].links[j].child)
    {
      LinkLength(f, tree, slot, ord, w, i, j);
    }
  }

  /** The set of a tree's links connects everything at the tree's cost. */
  lemma TreeCosts(f: Vec -> Vec, tree: Forest, slot: seq<(nat, nat)>, ord: seq<int>, w: (int, int) -> int)
    requires Orders(tree, slot, ord) && ShortLinks(f, tree) && Weighs(f, tree, ord, w)
    ensures Total(LinksTo(slot, ord, |tree|), w) == ForestCost(tree, |tree|)
    ensures forall k :: 0 <= k < |tree| ==> Joins(LinksTo(slot, ord, |tree|), {ord[0]}, ord[k])
  {
    var t := LinkTo(w, slot, ord);
    assert t(0) == 0;
    TreeLengths(f, tree, slot, ord, w);
    hide ShortLinks, Weighs, Weight, Joins, LinkTo, LinksTo, Lengths;
    forall k | 0 <= k < |tree|
      ensures Joins(LinksTo(slot, ord, |tree|), {ord[0]}, ord[k])
    {
      NodeJoins(tree, slot, ord, k);
    }
    LinksTotal(tree, slot, ord, w, |tree|);
    ForestIsChildSum(tree, t, |tree|);
    AllChildSumSame(tree, slot, t, |tree|);
    ChildrenBelow(tree, slot, t, |tree|);
  }
}
