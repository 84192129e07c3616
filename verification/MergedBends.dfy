/** Every merged outline bends somewhere: its links are too few to hide all bends of the outlines they join. */
module MergedBends {
  import opened Torus
  import opened Blocks
  import opened Outline
  import opened Trace
  import opened EdgeCover
  import opened Winding
  import opened Tour
  import opened Spanning
  import opened Linking
  import opened PolyLink
  import opened Conversion
  import opened Bends
  import opened Straight
  import opened StraightPairs

  /** Ends of links that an outline needs to hide its bends, and one to be linked at all. */
  ghost function Need(polys: seq<seq<Edge>>): int -> int {
    i => if 0 <= i < |polys| then if FullTurns(polys[i]) != 0 then 3 else 1 else 0
  }

  /** Exactly the first a outlines turn around. */
  ghost predicate TurningFirst(polys: seq<seq<Edge>>, a: nat) {
    a <= |polys| && forall i :: 0 <= i < |polys| ==> (FullTurns(polys[i]) != 0 <==> i < a)
  }

  lemma {:induction false} SortedTurns(polys: seq<seq<Edge>>)
    ensures TurningFirst(Sorted(polys), |OfSign(polys, -1)| + |OfSign(polys, 1)|)
  {
    hide FullTurns, OfSign;
    OfSignTurns(polys, -1);
    OfSignTurns(polys, 1);
    OfSignTurns(polys, 0);
  }

  lemma {:induction false} NeedSum(polys: seq<seq<Edge>>, a: nat, j: nat)
    requires TurningFirst(polys, a) && j <= |polys|
    ensures RangeSum(Need(polys), j) == if j <= a then 3 * j else 2 * a + j
  {
    hide FullTurns;
    if j > 0 { NeedSum(polys, a, j - 1); }
  }

  /** The tree over these outlines, in this order. */
  ghost predicate TreeOf(polys: seq<seq<Edge>>, tree: Forest, slot: seq<(nat, nat)>, ord: seq<int>) {
    IsTree(tree, slot) && |tree| == |ord| == |polys| && Order(ord, |polys|) &&
    (forall k :: 0 <= k < |tree| ==> 0 <= ord[k] < |polys| && tree[k].poly == polys[ord[k]]) &&
    forall k :: 0 <= k < |tree| ==> Heads(tree[k].poly) && tree[k].poly != []
  }

  lemma {:induction false} RootLinked(tree: Forest, slot: seq<(nat, nat)>)
    requires IsTree(tree, slot) && |tree| >= 2
    ensures |tree[0].links| >= 1
  {
    assert LinkOk(tree, slot[1].0, tree[slot[1].0].links[slot[1].1]);
  }

  lemma {:induction false} NodeOf(polys: seq<seq<Edge>>, tree: Forest, slot: seq<(nat, nat)>, ord: seq<int>, k: nat)
    requires TreeOf(polys, tree, slot, ord) && k < |tree|
    ensures 0 <= ord[k] < |polys| && tree[k].poly == polys[ord[k]] && Heads(tree[k].poly) && tree[k].poly != []
  {}

  /** If the tour does not bend, every outline has the link ends it needs. */
  lemma {:induction false} NeedMet(polys: seq<seq<Edge>>, tree: Forest, slot: seq<(nat, nat)>, ord: seq<int>, k: nat,
                                   pos: Vec)
    requires TreeOf(polys, tree, slot, ord) && k < |tree| && !Bent(Visit(tree, 0, pos, 0))
    requires |tree| >= 2 || FullTurns(tree[k].poly) != 0
    ensures Need(polys)(ord[k]) <= Degree(tree, k)
  {
    NodeOf(polys, tree, slot, ord, k);
    hide TreeOf, Bent, Visit, Heads, FullTurns;
    assert IsTree(tree, slot) by { TreeIs(polys, tree, slot, ord); }
    hide IsTree;
    ChangesCovered(tree, slot, k, pos);
    if FullTurns(tree[k].poly) != 0 {
      TurningBends(tree[k].poly);
    } else {
      RootLinked(tree, slot);
    }
  }

  lemma {:induction false} TreeIs(polys: seq<seq<Edge>>, tree: Forest, slot: seq<(nat, nat)>, ord: seq<int>)
    requires TreeOf(polys, tree, slot, ord)
    ensures IsTree(tree, slot) && WellFormed(tree) && |tree| == |ord| == |polys| && |tree| > 0 && Order(ord, |polys|)
  {
    hide Heads;
  }

  lemma {:induction false} NeedsMet(polys: seq<seq<Edge>>, tree: Forest, slot: seq<(nat, nat)>, ord: seq<int>, j: nat,
                                    pos: Vec)
    requires TreeOf(polys, tree, slot, ord) && j <= |tree| && WellFormed(tree) && |tree| > 0
    requires !Bent(Visit(tree, 0, pos, 0))
    requires |tree| >= 2 || FullTurns(tree[0].poly) != 0
    ensures j <= |ord| && OrderSum(Need(polys), ord[..j]) <= DegreeSum(tree, j)
  {
    hide TreeOf, Bent, Visit, FullTurns, Need, WellFormed;
    TreeIs(polys, tree, slot, ord);
    hide IsTree, Order;
    if j > 0 {
      NeedsMet(polys, tree, slot, ord, j - 1, pos);
      NeedMet(polys, tree, slot, ord, j - 1, pos);
      assert ord[..j][..j - 1] == ord[..j - 1];
    }
  }

  /** So without a bend there are two outlines, neither of which turns around. */
  lemma {:induction false} OnlyTwo(polys: seq<seq<Edge>>, tree: Forest, slot: seq<(nat, nat)>, ord: seq<int>, a: nat,
                                   pos: Vec)
    requires TreeOf(polys, tree, slot, ord) && WellFormed(tree) && |tree| > 0
    requires !Bent(Visit(tree, 0, pos, 0))
    requires TurningFirst(polys, a) && |polys| - a in {0, 2}
    ensures |tree| == 2 && a == 0
  {
    NodeOf(polys, tree, slot, ord, 0);
    TreeIs(polys, tree, slot, ord);
    assert |tree| >= 2 || FullTurns(tree[0].poly) != 0;
    hide TreeOf, Bent, Visit, FullTurns, TurningFirst, Need, IsTree, WellFormed, Order;
    var n := |tree|;
    NeedsMet(polys, tree, slot, ord, n, pos);
    assert ord[..n] == ord;
    OrderSumIsRange(Need(polys), ord, n);
    NeedSum(polys, a, n);
    TreeDegrees(tree, slot);
  }

  // ----- Two outlines that do not turn around

  /** What is known of an outline of the map. */
  ghost predicate Walks(m: BlockMap, poly: seq<Edge>, t: seq<State>)
    requires m.Valid()
  {
    Cycle(m, t) && Follows(m, poly, t)
  }

  ghost predicate OnMap(m: BlockMap, poly: seq<Edge>)
    requires m.Valid()
  {
    exists t :: Walks(m, poly, t)
  }

  lemma {:induction false} TwoNodes(tree: Forest, slot: seq<(nat, nat)>)
    requires IsTree(tree, slot) && |tree| == 2
    ensures |tree[0].links| == 1 && tree[1].links == []
    ensures tree[0].links[0].child == 1 && LinkOk(tree, 0, tree[0].links[0])
  {
    TreeDegrees(tree, slot);
    RootLinked(tree, slot);
    assert DegreeSum(tree, 2) == DegreeSum(tree, 1) + Degree(tree, 1);
    assert DegreeSum(tree, 1) == DegreeSum(tree, 0) + Degree(tree, 0);
    assert LinkOk(tree, 0, tree[0].links[0]);
  }

  lemma {:induction false} FitsLink(tree: Forest, width: int, height: int, i: nat, j: nat)
    requires Fits(tree, width, height) && i < |tree| && j < |tree[i].links|
    ensures width > 0 && height > 0 && WellFormed(tree) && LinkOk(tree, i, tree[i].links[j])
    ensures var l := tree[i].links[j];
            Congruent(Plus(tree[i].poly[l.start].pos, l.off), tree[l.child].poly[l.index].pos, width, height)
  {
    hide Congruent, Loops;
  }

  /** Two linked outlines that cancel make a tour that bends. */
  lemma {:induction false} PairBends(m: BlockMap, tree: Forest, slot: seq<(nat, nat)>, t: seq<State>, t': seq<State>,
                                     pos: Vec)
    requires m.Valid() && IsTree(tree, slot) && Fits(tree, m.width, m.height)
    requires |tree| == 2 && OwnSum(tree, 2) == Vec(0, 0)
    requires Walks(m, tree[0].poly, t) && Walks(m, tree[1].poly, t')
    requires Heads(tree[0].poly) && Heads(tree[1].poly) && tree[0].poly != [] && tree[1].poly != []
    ensures Bent(Visit(tree, 0, pos, 0))
  {
    assert WellFormed(tree);
    TwoNodes(tree, slot);
    FitsLink(tree, m.width, m.height, 0, 0);
    var l := tree[0].links[0];
    assert OwnSum(tree, 1) == Plus(OwnSum(tree, 0), Prefix(tree[0].poly, |tree[0].poly|));
    assert Plus(Prefix(tree[0].poly, |tree[0].poly|), Prefix(tree[1].poly, |tree[1].poly|)) == Vec(0, 0);
    hide IsTree, Fits, WellFormed, OwnSum, Prefix, Heads, Visit, HasTurn, Cycle, Follows, Parallel, Congruent;
    hide IsStraight;
    if !Bent(Visit(tree, 0, pos, 0)) {
      ChangesCovered(tree, slot, 0, pos);
      ChangesCovered(tree, slot, 1, pos);
      FewChangesStraight(tree[0].poly);
      FewChangesStraight(tree[1].poly);
      var d, e := DirsOf(tree[0].poly)[0], DirsOf(tree[1].poly)[0];
      LinkLeaves(m, tree[0].poly, t, d, tree[1].poly, t', e, l.start, l.index, l.off);
      StraightAt(tree[0].poly, d, l.start);
      LastLinkTurn(tree, 0, pos, 0);
    }
  }

  lemma StraightAt(poly: seq<Edge>, d: Dir, i: nat)
    requires IsStraight(poly, d) && i < |poly|
    ensures poly[i].off == Unit(d)
  {}

  /** A mix that passes the assertions has no outline that does not turn around, or two. */
  lemma {:induction false} MixTurns(polys: seq<seq<Edge>>) returns (a: nat)
    requires !IsBadMix(polys)
    ensures TurningFirst(Sorted(polys), a) && |Sorted(polys)| - a in {0, 2}
  {
    hide TurningFirst, OfSign;
    SortedTurns(polys);
    a := |OfSign(polys, -1)| + |OfSign(polys, 1)|;
  }

  /** Every tour over the outlines of a mix that passes the assertions bends, if the outlines cancel. */
  lemma {:induction false} MixBends(m: BlockMap, polys: seq<seq<Edge>>, tree: Forest, slot: seq<(nat, nat)>,
                                    ord: seq<int>, pos: Vec)
    requires m.Valid() && TreeOf(Sorted(polys), tree, slot, ord) && Fits(tree, m.width, m.height) && !IsBadMix(polys)
    requires OwnSum(tree, |tree|) == Vec(0, 0)
    requires forall k :: 0 <= k < |tree| ==> OnMap(m, tree[k].poly)
    ensures WellFormed(tree) && |tree| > 0 && Bent(Visit(tree, 0, pos, 0))
  {
    TreeIs(Sorted(polys), tree, slot, ord);
    hide TreeOf, IsTree, Fits, WellFormed, IsBadMix, Bent, Visit, TurningFirst, Order, Sorted, OfSign, Walks;
    var a := MixTurns(polys);
    if !Bent(Visit(tree, 0, pos, 0)) {
      OnlyTwo(Sorted(polys), tree, slot, ord, a, pos);
      NodeOf(Sorted(polys), tree, slot, ord, 0);
      NodeOf(Sorted(polys), tree, slot, ord, 1);
      assert OnMap(m, tree[0].poly) && OnMap(m, tree[1].poly);
      var t :| Walks(m, tree[0].poly, t);
      var t' :| Walks(m, tree[1].poly, t');
      PairBends(m, tree, slot, t, t', pos);
    }
  }
}
