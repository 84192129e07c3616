/** The tour that merges a tree of linked outlines into one, as a function of the tree. */
module Tour {
  import opened Torus
  import opened Trace
  import opened ClosestPair

  /** A link from corner start of an outline to corner index of outline child. */
  datatype TreeLink = TreeLink(start: nat, child: nat, index: nat, off: Vec)

  datatype Node = Node(poly: seq<Edge>, links: seq<TreeLink>)

  /** Outlines in the order in which they were attached; links lead to later outlines. */
  type Forest = seq<Node>

  /** A record of the merged outline; hidden records are links. */
  datatype Rec = Rec(pos: Vec, off: Vec, hidden: bool)

  ghost predicate LinkOk(f: Forest, i: int, l: TreeLink)
    requires 0 <= i < |f|
  {
    i < l.child < |f| && l.start < |f[i].poly| && l.index < |f[l.child].poly|
  }

  ghost predicate WellFormed(f: Forest) {
    forall i :: 0 <= i < |f| ==> |f[i].poly| > 0 && forall j :: 0 <= j < |f[i].links| ==> LinkOk(f, i, f[i].links[j])
  }

  function Corner(poly: seq<Edge>, start: nat, n: nat): (c: nat)
    requires |poly| > 0
    ensures c < |poly|
  {
    (start + n) % |poly|
  }

  /** Position after n edges of the outline, walked from corner start at pos. */
  function PosAt(poly: seq<Edge>, pos: Vec, start: nat, n: nat): Vec
    requires |poly| > 0
  {
    if n == 0 then pos else Plus(PosAt(poly, pos, start, n - 1), poly[Corner(poly, start, n - 1)].off)
  }

  /** Records emitted for outline i and everything linked below it. */
  ghost function Visit(f: Forest, i: nat, pos: Vec, start: nat): seq<Rec>
    requires WellFormed(f) && i < |f|
    decreases |f| - i, 2, 0
  {
    Around(f, i, pos, start, |f[i].poly|)
  }

  /** The first n corners of outline i: the links that leave there, then the edge. */
  ghost function Around(f: Forest, i: nat, pos: Vec, start: nat, n: nat): seq<Rec>
    requires WellFormed(f) && i < |f|
    decreases |f| - i, 1, n
  {
    if n == 0 then []
    else
      var c := Corner(f[i].poly, start, n - 1);
      var at := PosAt(f[i].poly, pos, start, n - 1);
      Around(f, i, pos, start, n - 1) + LinksAt(f, i, at, c, |f[i].links|) + [Rec(at, f[i].poly[c].off, false)]
  }

  /** The first j links of outline i that leave from corner c, out and back. */
  ghost function LinksAt(f: Forest, i: nat, at: Vec, c: nat, j: nat): seq<Rec>
    requires WellFormed(f) && i < |f| && j <= |f[i].links|
    decreases |f| - i, 0, j
  {
    if j == 0 then []
    else
      var l := f[i].links[j - 1];
      assert LinkOk(f, i, l);
      LinksAt(f, i, at, c, j - 1) +
      if l.start == c then
        [Rec(at, l.off, true)] + Visit(f, l.child, Plus(at, l.off), l.index) + [Rec(Plus(at, l.off), Neg(l.off), true)]
      else []
  }

  // ---- measures: what the tour conserves ----

  /** Weighs a record: visible ones by their place on the torus and offset, hidden ones by offset. */
  datatype Measure = Measure(edge: (Vec, Vec) -> int, link: Vec -> int, width: int, height: int)

  ghost function Weigh(g: Measure, recs: seq<Rec>): int
    requires g.width > 0 && g.height > 0
  {
    if recs == [] then 0
    else
      var r := recs[|recs| - 1];
      Weigh(g, recs[..|recs| - 1]) + if r.hidden then g.link(r.off) else g.edge(Wrap(r.pos, g.width, g.height), r.off)
  }

  lemma {:induction false} WeighConcat(g: Measure, a: seq<Rec>, b: seq<Rec>)
    requires g.width > 0 && g.height > 0
    ensures Weigh(g, a + b) == Weigh(g, a) + Weigh(g, b)
    decreases |b|
  {
    if b == [] {
      assert a + b == a;
    } else {
      var n := |b| - 1;
      WeighConcat(g, a, b[..n]);
      assert (a + b)[..|a + b| - 1] == a + b[..n];
    }
  }

  lemma WeighOne(g: Measure, r: Rec)
    requires g.width > 0 && g.height > 0
    ensures Weigh(g, [r]) == if r.hidden then g.link(r.off) else g.edge(Wrap(r.pos, g.width, g.height), r.off)
  {
    assert [r][..0] == [];
  }

  ghost function EdgeSum(g: Measure, poly: seq<Edge>, n: nat): int
    requires n <= |poly| && g.width > 0 && g.height > 0
  {
    if n == 0 then 0
    else EdgeSum(g, poly, n - 1) + g.edge(Wrap(poly[n - 1].pos, g.width, g.height), poly[n - 1].off)
  }

  ghost function LinkSum(g: Measure, links: seq<TreeLink>, n: nat): int
    requires n <= |links|
  {
    if n == 0 then 0
    else LinkSum(g, links, n - 1) + g.link(links[n - 1].off) + g.link(Neg(links[n - 1].off))
  }

  /** Weight of outline i itself: each edge once, each of its links once in each direction. */
  ghost function NodeWeight(g: Measure, f: Forest, i: nat): int
    requires i < |f| && g.width > 0 && g.height > 0
  {
    EdgeSum(g, f[i].poly, |f[i].poly|) + LinkSum(g, f[i].links, |f[i].links|)
  }

  ghost function TreeWeight(g: Measure, f: Forest, i: nat): int
    requires WellFormed(f) && i < |f| && g.width > 0 && g.height > 0
    decreases |f| - i, 1, 0
  {
    NodeWeight(g, f, i) + BelowWeight(g, f, i, |f[i].links|)
  }

  ghost function BelowWeight(g: Measure, f: Forest, i: nat, n: nat): int
    requires WellFormed(f) && i < |f| && n <= |f[i].links| && g.width > 0 && g.height > 0
    decreases |f| - i, 0, n
  {
    if n == 0 then 0
    else
      var l := f[i].links[n - 1];
      assert LinkOk(f, i, l);
      BelowWeight(g, f, i, n - 1) + TreeWeight(g, f, l.child)
  }

  /** The outline is closed on the torus and its records follow each other. */
  ghost predicate Loops(poly: seq<Edge>, width: int, height: int)
    requires width > 0 && height > 0
  {
    |poly| > 0 &&
    (forall p :: 0 < p < |poly| ==> Congruent(poly[p].pos, Plus(poly[p - 1].pos, poly[p - 1].off), width, height)) &&
    Congruent(poly[0].pos, Plus(poly[|poly| - 1].pos, poly[|poly| - 1].off), width, height)
  }

  /** Each link leads from its corner to a point congruent to its target corner. */
  ghost predicate LinksFit(f: Forest, width: int, height: int)
    requires WellFormed(f) && width > 0 && height > 0
  {
    forall i, j :: 0 <= i < |f| && 0 <= j < |f[i].links| ==>
      var l := f[i].links[j];
      LinkOk(f, i, l) && Congruent(Plus(f[i].poly[l.start].pos, l.off), f[l.child].poly[l.index].pos, width, height)
  }

  ghost predicate Fits(f: Forest, width: int, height: int) {
    WellFormed(f) && width > 0 && height > 0 && LinksFit(f, width, height) &&
    forall i :: 0 <= i < |f| ==> Loops(f[i].poly, width, height)
  }

  lemma FitsLoops(f: Forest, width: int, height: int, i: nat)
    requires Fits(f, width, height) && i < |f|
    ensures WellFormed(f) && width > 0 && height > 0 && Loops(f[i].poly, width, height) && |f[i].poly| > 0
  {}

  lemma NextCorner(poly: seq<Edge>, start: nat, n: nat)
    requires |poly| > 0
    ensures var c := Corner(poly, start, n); Corner(poly, start, n + 1) == if c + 1 < |poly| then c + 1 else 0
  {
    var len := |poly|;
    ModPlus(start + n, 1, len);
    var c := Corner(poly, start, n);
    if c + 1 < len { ModUnique(c + 1, len, 0, c + 1); } else { ModUnique(c + 1, len, 1, 0); }
  }

  /** Walking the outline keeps to its corners. */
  lemma {:induction false} PosFits(poly: seq<Edge>, pos: Vec, start: nat, n: nat, width: int, height: int)
    requires width > 0 && height > 0 && Loops(poly, width, height) && start < |poly|
    requires Congruent(pos, poly[start].pos, width, height)
    ensures Congruent(PosAt(poly, pos, start, n), poly[Corner(poly, start, n)].pos, width, height)
  {
    if n == 0 {
      ModUnique(start, |poly|, 0, start);
    } else {
      PosFits(poly, pos, start, n - 1, width, height);
      NextCorner(poly, start, n - 1);
      var c := Corner(poly, start, n - 1);
      CongruentPlus(PosAt(poly, pos, start, n - 1), poly[c].pos, poly[c].off, width, height);
    }
  }

  /** Weight of the links among the first j that leave from corner c, with their subtrees. */
  ghost function LinkWeightAt(g: Measure, f: Forest, i: nat, c: nat, j: nat): int
    requires WellFormed(f) && i < |f| && j <= |f[i].links| && g.width > 0 && g.height > 0
  {
    if j == 0 then 0
    else
      var l := f[i].links[j - 1];
      assert LinkOk(f, i, l);
      LinkWeightAt(g, f, i, c, j - 1) +
      if l.start == c then g.link(l.off) + g.link(Neg(l.off)) + TreeWeight(g, f, l.child) else 0
  }

  /** Weights summed over the first n corners from start on. */
  ghost function CornerWeights(g: Measure, f: Forest, i: nat, start: nat, n: nat): int
    requires WellFormed(f) && i < |f| && g.width > 0 && g.height > 0
  {
    if n == 0 then 0
    else
      var c := Corner(f[i].poly, start, n - 1);
      CornerWeights(g, f, i, start, n - 1) + LinkWeightAt(g, f, i, c, |f[i].links|) +
      g.edge(Wrap(f[i].poly[c].pos, g.width, g.height), f[i].poly[c].off)
  }

  ghost function CornerWeight(g: Measure, f: Forest, i: nat, c: nat): int
    requires WellFormed(f) && i < |f| && c < |f[i].poly| && g.width > 0 && g.height > 0
  {
    LinkWeightAt(g, f, i, c, |f[i].links|) + g.edge(Wrap(f[i].poly[c].pos, g.width, g.height), f[i].poly[c].off)
  }

  /** The same sum over corners 0 to n - 1. */
  ghost function FirstCorners(g: Measure, f: Forest, i: nat, n: nat): int
    requires WellFormed(f) && i < |f| && n <= |f[i].poly| && g.width > 0 && g.height > 0
  {
    if n == 0 then 0 else FirstCorners(g, f, i, n - 1) + CornerWeight(g, f, i, n - 1)
  }

  /** Starting the round elsewhere does not change what it passes. */
  lemma {:induction false} Rotated(g: Measure, f: Forest, i: nat, start: nat, n: nat)
    requires WellFormed(f) && i < |f| && start < |f[i].poly| && n <= |f[i].poly| && g.width > 0 && g.height > 0
    ensures var len := |f[i].poly|;
            CornerWeights(g, f, i, start, n) + FirstCorners(g, f, i, start) ==
            if start + n <= len then FirstCorners(g, f, i, start + n)
            else FirstCorners(g, f, i, len) + FirstCorners(g, f, i, start + n - len)
  {
    if n > 0 {
      hide LinkWeightAt;
      var len := |f[i].poly|;
      Rotated(g, f, i, start, n - 1);
      var turns := if start + n <= len then 0 else 1;
      ModUnique(start + n - 1, len, turns, start + n - 1 - turns * len);
    }
  }

  /** Weight of the first j links whose corner is below n. */
  ghost function LinksBelow(g: Measure, f: Forest, i: nat, n: nat, j: nat): int
    requires WellFormed(f) && i < |f| && j <= |f[i].links| && g.width > 0 && g.height > 0
  {
    if j == 0 then 0
    else
      var l := f[i].links[j - 1];
      assert LinkOk(f, i, l);
      LinksBelow(g, f, i, n, j - 1) +
      if l.start < n then g.link(l.off) + g.link(Neg(l.off)) + TreeWeight(g, f, l.child) else 0
  }

  lemma {:induction false} OneMoreCorner(g: Measure, f: Forest, i: nat, n: nat, j: nat)
    requires WellFormed(f) && i < |f| && j <= |f[i].links| && g.width > 0 && g.height > 0
    ensures LinksBelow(g, f, i, n + 1, j) == LinksBelow(g, f, i, n, j) + LinkWeightAt(g, f, i, n, j)
    ensures LinksBelow(g, f, i, 0, j) == 0
  {
    if j > 0 {
      assert LinkOk(f, i, f[i].links[j - 1]);
      OneMoreCorner(g, f, i, n, j - 1);
    }
  }

  lemma {:induction false} CornersSplit(g: Measure, f: Forest, i: nat, n: nat)
    requires WellFormed(f) && i < |f| && n <= |f[i].poly| && g.width > 0 && g.height > 0
    ensures FirstCorners(g, f, i, n) == EdgeSum(g, f[i].poly, n) + LinksBelow(g, f, i, n, |f[i].links|)
  {
    if n > 0 {
      CornersSplit(g, f, i, n - 1);
      OneMoreCorner(g, f, i, n - 1, |f[i].links|);
    } else {
      OneMoreCorner(g, f, i, 0, |f[i].links|);
    }
  }

  lemma {:induction false} AllLinks(g: Measure, f: Forest, i: nat, j: nat)
    requires WellFormed(f) && i < |f| && j <= |f[i].links| && g.width > 0 && g.height > 0
    ensures LinksBelow(g, f, i, |f[i].poly|, j) == LinkSum(g, f[i].links, j) + BelowWeight(g, f, i, j)
  {
    if j > 0 {
      assert LinkOk(f, i, f[i].links[j - 1]);
      AllLinks(g, f, i, j - 1);
    }
  }

  lemma AllCorners(g: Measure, f: Forest, i: nat, start: nat)
    requires WellFormed(f) && i < |f| && start < |f[i].poly| && g.width > 0 && g.height > 0
    ensures CornerWeights(g, f, i, start, |f[i].poly|) == TreeWeight(g, f, i)
  {
    Rotated(g, f, i, start, |f[i].poly|);
    CornersSplit(g, f, i, |f[i].poly|);
    AllLinks(g, f, i, |f[i].links|);
  }

  lemma {:induction false} VisitWeight(g: Measure, f: Forest, i: nat, pos: Vec, start: nat)
    requires Fits(f, g.width, g.height) && i < |f| && start < |f[i].poly|
    requires Congruent(pos, f[i].poly[start].pos, g.width, g.height)
    ensures Weigh(g, Visit(f, i, pos, start)) == TreeWeight(g, f, i)
    decreases |f| - i, 2, 0
  {
    AroundWeight(g, f, i, pos, start, |f[i].poly|);
    AllCorners(g, f, i, start);
  }

  lemma WeighRound(g: Measure, a: seq<Rec>, b: seq<Rec>, r: Rec)
    requires g.width > 0 && g.height > 0 && !r.hidden
    ensures Weigh(g, a + b + [r]) == Weigh(g, a) + Weigh(g, b) + g.edge(Wrap(r.pos, g.width, g.height), r.off)
  {
    WeighConcat(g, a, b);
    WeighConcat(g, a + b, [r]);
    WeighOne(g, r);
  }

  lemma {:induction false} AroundWeight(g: Measure, f: Forest, i: nat, pos: Vec, start: nat, n: nat)
    requires Fits(f, g.width, g.height) && i < |f| && start < |f[i].poly|
    requires Congruent(pos, f[i].poly[start].pos, g.width, g.height)
    ensures Weigh(g, Around(f, i, pos, start, n)) == CornerWeights(g, f, i, start, n)
    decreases |f| - i, 1, n
  {
    FitsLoops(f, g.width, g.height, i);
    hide Fits, WellFormed, Loops, Congruent, Corner, LinkWeightAt, PosAt, LinksAt;
    if n > 0 {
      hide Weigh, Around, CornerWeights;
      var c, at := Corner(f[i].poly, start, n - 1), PosAt(f[i].poly, pos, start, n - 1);
      AroundWeight(g, f, i, pos, start, n - 1);
      PosFits(f[i].poly, pos, start, n - 1, g.width, g.height);
      LinksAtWeight(g, f, i, at, c, |f[i].links|);
      AroundStep(g, f, i, pos, start, n);
    }
  }

  /** One more corner adds the same to the tour and to the weights passed. */
  lemma AroundStep(g: Measure, f: Forest, i: nat, pos: Vec, start: nat, n: nat)
    requires WellFormed(f) && i < |f| && n > 0 && g.width > 0 && g.height > 0
    requires var c, at := Corner(f[i].poly, start, n - 1), PosAt(f[i].poly, pos, start, n - 1);
             && Congruent(at, f[i].poly[c].pos, g.width, g.height)
             && Weigh(g, LinksAt(f, i, at, c, |f[i].links|)) == LinkWeightAt(g, f, i, c, |f[i].links|)
    requires Weigh(g, Around(f, i, pos, start, n - 1)) == CornerWeights(g, f, i, start, n - 1)
    ensures Weigh(g, Around(f, i, pos, start, n)) == CornerWeights(g, f, i, start, n)
  {
    hide WellFormed, Corner, Weigh, LinkWeightAt, PosAt, Around, LinksAt, Wrap, CornerWeights;
    CornerRound(g, f, i, pos, start, n);
    CornerNext(g, f, i, start, n);
  }

  lemma CornerNext(g: Measure, f: Forest, i: nat, start: nat, n: nat)
    requires WellFormed(f) && i < |f| && n > 0 && g.width > 0 && g.height > 0
    ensures var c := Corner(f[i].poly, start, n - 1);
            CornerWeights(g, f, i, start, n) ==
            CornerWeights(g, f, i, start, n - 1) + LinkWeightAt(g, f, i, c, |f[i].links|) +
            g.edge(Wrap(f[i].poly[c].pos, g.width, g.height), f[i].poly[c].off)
  {}

  /** What one more corner adds to the tour. */
  lemma CornerRound(g: Measure, f: Forest, i: nat, pos: Vec, start: nat, n: nat)
    requires WellFormed(f) && i < |f| && n > 0 && g.width > 0 && g.height > 0
    ensures var c, at := Corner(f[i].poly, start, n - 1), PosAt(f[i].poly, pos, start, n - 1);
            Weigh(g, Around(f, i, pos, start, n)) ==
            Weigh(g, Around(f, i, pos, start, n - 1)) + Weigh(g, LinksAt(f, i, at, c, |f[i].links|)) +
            g.edge(Wrap(at, g.width, g.height), f[i].poly[c].off)
  {
    hide Corner, Weigh, PosAt, LinksAt, Wrap;
    var c, at := Corner(f[i].poly, start, n - 1), PosAt(f[i].poly, pos, start, n - 1);
    var a, b := Around(f, i, pos, start, n - 1), LinksAt(f, i, at, c, |f[i].links|);
    WeighRound(g, a, b, Rec(at, f[i].poly[c].off, false));
  }

  lemma {:induction false} LinksAtWeight(g: Measure, f: Forest, i: nat, at: Vec, c: nat, j: nat)
    requires Fits(f, g.width, g.height) && i < |f| && c < |f[i].poly| && j <= |f[i].links|
    requires Congruent(at, f[i].poly[c].pos, g.width, g.height)
    ensures Weigh(g, LinksAt(f, i, at, c, j)) == LinkWeightAt(g, f, i, c, j)
    decreases |f| - i, 0, j
  {
    if j > 0 {
      var l := f[i].links[j - 1];
      assert LinkOk(f, i, l);
      LinksAtWeight(g, f, i, at, c, j - 1);
      var a := LinksAt(f, i, at, c, j - 1);
      if l.start == c {
        CongruentPlus(at, f[i].poly[c].pos, l.off, g.width, g.height);
        VisitWeight(g, f, l.child, Plus(at, l.off), l.index);
        var u, v, w := Rec(at, l.off, true), Visit(f, l.child, Plus(at, l.off), l.index),
          Rec(Plus(at, l.off), Neg(l.off), true);
        WeighOne(g, u);
        WeighOne(g, w);
        WeighConcat(g, [u], v);
        WeighConcat(g, [u] + v, [w]);
        WeighConcat(g, a, [u] + v + [w]);
      } else {
        assert a + [] == a;
      }
    }
  }

  // ---- the tree reaches every outline once ----

  /** Outline k > 0 is the target of exactly one link, at slot[k]. */
  ghost predicate IsTree(f: Forest, slot: seq<(nat, nat)>) {
    WellFormed(f) && |f| > 0 && |slot| == |f| &&
    (forall k :: 0 < k < |f| ==>
       slot[k].0 < |f| && slot[k].1 < |f[slot[k].0].links| && f[slot[k].0].links[slot[k].1].child == k) &&
    forall i, j :: 0 <= i < |f| && 0 <= j < |f[i].links| ==>
      LinkOk(f, i, f[i].links[j]) && slot[f[i].links[j].child] == (i, j)
  }

  ghost function ChildSum(f: Forest, i: nat, t: int -> int, n: nat): int
    requires i < |f| && n <= |f[i].links|
  {
    if n == 0 then 0 else ChildSum(f, i, t, n - 1) + t(f[i].links[n - 1].child)
  }

  ghost function AllChildSum(f: Forest, t: int -> int, n: nat): int
    requires n <= |f|
  {
    if n == 0 then 0 else AllChildSum(f, t, n - 1) + ChildSum(f, n - 1, t, |f[n - 1].links|)
  }

  ghost function RangeSum(t: int -> int, n: nat): int {
    if n == 0 then 0 else RangeSum(t, n - 1) + t(n - 1)
  }

  /** t where it is asked for below c, zero elsewhere. */
  ghost function Below(t: int -> int, c: int): int -> int { k => if 0 < k < c then t(k) else 0 }

  lemma {:induction false} ChildSumStep(f: Forest, slot: seq<(nat, nat)>, t: int -> int, c: nat, i: nat, n: nat)
    requires IsTree(f, slot) && 0 < c < |f| && i < |f| && n <= |f[i].links|
    ensures ChildSum(f, i, Below(t, c + 1), n) ==
            ChildSum(f, i, Below(t, c), n) + if slot[c].0 == i && slot[c].1 < n then t(c) else 0
  {
    if n > 0 {
      ChildSumStep(f, slot, t, c, i, n - 1);
      assert LinkOk(f, i, f[i].links[n - 1]) && slot[f[i].links[n - 1].child] == (i, n - 1);
    }
  }

  lemma {:induction false} AllChildSumStep(f: Forest, slot: seq<(nat, nat)>, t: int -> int, c: nat, n: nat)
    requires IsTree(f, slot) && 0 < c < |f| && n <= |f|
    ensures AllChildSum(f, Below(t, c + 1), n) == AllChildSum(f, Below(t, c), n) + if slot[c].0 < n then t(c) else 0
  {
    if n > 0 {
      AllChildSumStep(f, slot, t, c, n - 1);
      ChildSumStep(f, slot, t, c, n - 1, |f[n - 1].links|);
    }
  }

  lemma {:induction false} ChildSumZero(f: Forest, t: int -> int, i: nat, n: nat)
    requires i < |f| && n <= |f[i].links|
    ensures ChildSum(f, i, Below(t, 1), n) == 0
  {
    if n > 0 { ChildSumZero(f, t, i, n - 1); }
  }

  lemma {:induction false} AllChildSumZero(f: Forest, t: int -> int, n: nat)
    requires n <= |f|
    ensures AllChildSum(f, Below(t, 1), n) == 0
  {
    if n > 0 {
      AllChildSumZero(f, t, n - 1);
      ChildSumZero(f, t, n - 1, |f[n - 1].links|);
    }
  }

  lemma {:induction false} ChildrenBelow(f: Forest, slot: seq<(nat, nat)>, t: int -> int, c: nat)
    requires IsTree(f, slot) && 0 < c <= |f|
    ensures AllChildSum(f, Below(t, c), |f|) == RangeSum(t, c) - t(0)
  {
    if c == 1 {
      AllChildSumZero(f, t, |f|);
      assert RangeSum(t, 1) == RangeSum(t, 0) + t(0);
    } else {
      ChildrenBelow(f, slot, t, c - 1);
      AllChildSumStep(f, slot, t, c - 1, |f|);
    }
  }

  lemma {:induction false} ChildSumSame(f: Forest, slot: seq<(nat, nat)>, t: int -> int, i: nat, n: nat)
    requires IsTree(f, slot) && i < |f| && n <= |f[i].links|
    ensures ChildSum(f, i, Below(t, |f|), n) == ChildSum(f, i, t, n)
  {
    if n > 0 {
      ChildSumSame(f, slot, t, i, n - 1);
      assert LinkOk(f, i, f[i].links[n - 1]);
    }
  }

  lemma {:induction false} AllChildSumSame(f: Forest, slot: seq<(nat, nat)>, t: int -> int, n: nat)
    requires IsTree(f, slot) && n <= |f|
    ensures AllChildSum(f, Below(t, |f|), n) == AllChildSum(f, t, n)
  {
    if n > 0 {
      AllChildSumSame(f, slot, t, n - 1);
      ChildSumSame(f, slot, t, n - 1, |f[n - 1].links|);
    }
  }

  ghost function Weights(g: Measure, f: Forest): int -> int
    requires WellFormed(f) && g.width > 0 && g.height > 0
  {
    k => if 0 <= k < |f| then TreeWeight(g, f, k) else 0
  }

  ghost function NodeSum(g: Measure, f: Forest, n: nat): int
    requires n <= |f| && g.width > 0 && g.height > 0
  {
    if n == 0 then 0 else NodeSum(g, f, n - 1) + NodeWeight(g, f, n - 1)
  }

  lemma {:induction false} BelowIsChildSum(g: Measure, f: Forest, i: nat, n: nat)
    requires WellFormed(f) && i < |f| && n <= |f[i].links| && g.width > 0 && g.height > 0
    ensures BelowWeight(g, f, i, n) == ChildSum(f, i, Weights(g, f), n)
  {
    if n > 0 {
      BelowIsChildSum(g, f, i, n - 1);
      assert LinkOk(f, i, f[i].links[n - 1]);
    }
  }

  /** t gives each outline the weight of itself and all below it. */
  ghost predicate WeighsTrees(g: Measure, f: Forest, t: int -> int)
    requires g.width > 0 && g.height > 0
  {
    forall i :: 0 <= i < |f| ==> t(i) == NodeWeight(g, f, i) + ChildSum(f, i, t, |f[i].links|)
  }

  lemma {:induction false} WeightsAre(g: Measure, f: Forest)
    requires WellFormed(f) && g.width > 0 && g.height > 0
    ensures WeighsTrees(g, f, Weights(g, f))
  {
    hide NodeWeight, BelowWeight, ChildSum;
    forall i | 0 <= i < |f|
      ensures Weights(g, f)(i) == NodeWeight(g, f, i) + ChildSum(f, i, Weights(g, f), |f[i].links|)
    {
      BelowIsChildSum(g, f, i, |f[i].links|);
    }
  }

  lemma {:induction false} WeightsSplit(g: Measure, f: Forest, t: int -> int, n: nat)
    requires g.width > 0 && g.height > 0 && WeighsTrees(g, f, t) && n <= |f|
    ensures RangeSum(t, n) == NodeSum(g, f, n) + AllChildSum(f, t, n)
  {
    hide NodeWeight, ChildSum;
    if n > 0 { WeightsSplit(g, f, t, n - 1); }
  }

  /**
   * The tour conserves: for every measure, the merged outline weighs as much as all outline
   * edges once plus all links once in each direction.
   */
  lemma TourConserves(g: Measure, f: Forest, slot: seq<(nat, nat)>, pos: Vec, start: nat)
    requires Fits(f, g.width, g.height) && IsTree(f, slot) && start < |f[0].poly|
    requires Congruent(pos, f[0].poly[start].pos, g.width, g.height)
    ensures Weigh(g, Visit(f, 0, pos, start)) == NodeSum(g, f, |f|)
  {
    var t := Weights(g, f);
    VisitWeight(g, f, 0, pos, start);
    WeightsAre(g, f);
    WeightsSplit(g, f, t, |f|);
    AllChildSumSame(f, slot, t, |f|);
    ChildrenBelow(f, slot, t, |f|);
  }

  // ---- where the tour leads ----

  /** Sum of the offsets of the first n edges. */
  function Prefix(poly: seq<Edge>, n: nat): Vec
    requires n <= |poly|
  {
    if n == 0 then Vec(0, 0) else Plus(Prefix(poly, n - 1), poly[n - 1].off)
  }

  /** Where a pen ends that draws the records' offsets one after another. */
  ghost function OffsetSum(recs: seq<Rec>): Vec {
    if recs == [] then Vec(0, 0) else Plus(OffsetSum(recs[..|recs| - 1]), recs[|recs| - 1].off)
  }

  /** What the first n outlines lead away by themselves. */
  ghost function OwnSum(f: Forest, n: nat): Vec
    requires n <= |f|
  {
    if n == 0 then Vec(0, 0) else Plus(OwnSum(f, n - 1), Prefix(f[n - 1].poly, |f[n - 1].poly|))
  }

  function Part(v: Vec, down: bool): int { if down then v.y else v.x }

  /** Weighs every record by one coordinate of its offset. */
  ghost function Offsets(down: bool, width: int, height: int): Measure {
    Measure((v: Vec, o: Vec) => Part(o, down), (o: Vec) => Part(o, down), width, height)
  }

  lemma {:induction false} WeighOffsets(recs: seq<Rec>, down: bool, width: int, height: int)
    requires width > 0 && height > 0
    ensures Weigh(Offsets(down, width, height), recs) == Part(OffsetSum(recs), down)
    decreases |recs|
  {
    if recs != [] { WeighOffsets(recs[..|recs| - 1], down, width, height); }
  }

  lemma {:induction false} EdgeOffsets(poly: seq<Edge>, n: nat, down: bool, width: int, height: int)
    requires n <= |poly| && width > 0 && height > 0
    ensures EdgeSum(Offsets(down, width, height), poly, n) == Part(Prefix(poly, n), down)
  {
    if n > 0 { EdgeOffsets(poly, n - 1, down, width, height); }
  }

  lemma {:induction false} LinkOffsets(links: seq<TreeLink>, n: nat, down: bool, width: int, height: int)
    requires n <= |links|
    ensures LinkSum(Offsets(down, width, height), links, n) == 0
  {
    if n > 0 { LinkOffsets(links, n - 1, down, width, height); }
  }

  lemma {:induction false} NodeOffsets(f: Forest, n: nat, down: bool, width: int, height: int)
    requires n <= |f| && width > 0 && height > 0
    ensures NodeSum(Offsets(down, width, height), f, n) == Part(OwnSum(f, n), down)
  {
    if n > 0 {
      NodeOffsets(f, n - 1, down, width, height);
      EdgeOffsets(f[n - 1].poly, |f[n - 1].poly|, down, width, height);
      LinkOffsets(f[n - 1].links, |f[n - 1].links|, down, width, height);
    }
  }

  /** The merged outline leads as far away as all outlines together: it closes if and only if they cancel. */
  lemma VisitSum(f: Forest, slot: seq<(nat, nat)>, pos: Vec, start: nat, width: int, height: int)
    requires Fits(f, width, height) && IsTree(f, slot) && start < |f[0].poly|
    requires Congruent(pos, f[0].poly[start].pos, width, height)
    ensures OffsetSum(Visit(f, 0, pos, start)) == OwnSum(f, |f|)
  {
    assert WellFormed(f) && |f| > 0;
    hide Fits, WellFormed, IsTree, Congruent, Weigh, NodeSum;
    forall down: bool
      ensures Part(OffsetSum(Visit(f, 0, pos, start)), down) == Part(OwnSum(f, |f|), down)
    {
      TourConserves(Offsets(down, width, height), f, slot, pos, start);
      WeighOffsets(Visit(f, 0, pos, start), down, width, height);
      NodeOffsets(f, |f|, down, width, height);
    }
    assert Part(OwnSum(f, |f|), false) == OwnSum(f, |f|).x && Part(OwnSum(f, |f|), true) == OwnSum(f, |f|).y;
  }

  /** The same point of the plane or of the torus. */
  predicate Same(a: Vec, b: Vec, width: int, height: int, flat: bool)
    requires width > 0 && height > 0
  {
    if flat then a == b else Congruent(a, b, width, height)
  }

  /** The records lead from a to b without a jump. */
  ghost predicate Leads(recs: seq<Rec>, a: Vec, b: Vec, width: int, height: int, flat: bool)
    requires width > 0 && height > 0
  {
    if recs == [] then Same(a, b, width, height, flat)
    else
      var r := recs[|recs| - 1];
      Same(Plus(r.pos, r.off), b, width, height, flat) && Leads(recs[..|recs| - 1], a, r.pos, width, height, flat)
  }

  lemma {:induction false} LeadsTo(recs: seq<Rec>, a: Vec, b: Vec, c: Vec, width: int, height: int, flat: bool)
    requires width > 0 && height > 0 && Leads(recs, a, b, width, height, flat) && Same(b, c, width, height, flat)
    ensures Leads(recs, a, c, width, height, flat)
  {}

  lemma {:induction false} LeadsOn(p: seq<Rec>, q: seq<Rec>, a: Vec, b: Vec, c: Vec, width: int, height: int,
                                   flat: bool)
    requires width > 0 && height > 0 && Leads(p, a, b, width, height, flat) && Leads(q, b, c, width, height, flat)
    ensures Leads(p + q, a, c, width, height, flat)
    decreases |q|
  {
    if q == [] {
      assert p + q == p;
      LeadsTo(p, a, b, c, width, height, flat);
    } else {
      hide Same;
      var r := q[|q| - 1];
      LeadsOn(p, q[..|q| - 1], a, b, r.pos, width, height, flat);
      assert (p + q)[..|p + q| - 1] == p + q[..|q| - 1];
    }
  }

  lemma LeadsOne(r: Rec, width: int, height: int, flat: bool)
    requires width > 0 && height > 0
    ensures Leads([r], r.pos, Plus(r.pos, r.off), width, height, flat)
  {
    assert [r][..0] == [];
  }

  /** The outline's own offsets add up to nothing. */
  ghost predicate ClosedOutline(poly: seq<Edge>) {
    |poly| > 0 && Prefix(poly, |poly|) == Vec(0, 0)
  }

  lemma {:induction false} PosAtPrefix(poly: seq<Edge>, pos: Vec, start: nat, n: nat)
    requires |poly| > 0 && start < |poly| && n <= |poly|
    ensures Plus(PosAt(poly, pos, start, n), Prefix(poly, start)) ==
            Plus(pos, if start + n <= |poly| then Prefix(poly, start + n)
                      else Plus(Prefix(poly, |poly|), Prefix(poly, start + n - |poly|)))
  {
    if n > 0 {
      var len := |poly|;
      PosAtPrefix(poly, pos, start, n - 1);
      var turns := if start + n <= len then 0 else 1;
      ModUnique(start + n - 1, len, turns, start + n - 1 - turns * len);
    }
  }

  /** What walking needs: outlines that close on the torus, and in the plane where that is asked for. */
  ghost predicate Walkable(f: Forest, width: int, height: int, flat: bool) {
    Fits(f, width, height) && (flat ==> forall k :: 0 <= k < |f| ==> ClosedOutline(f[k].poly))
  }

  lemma WalkReturns(f: Forest, i: nat, pos: Vec, start: nat, width: int, height: int, flat: bool)
    requires Walkable(f, width, height, flat) && i < |f| && start < |f[i].poly|
    requires Congruent(pos, f[i].poly[start].pos, width, height)
    ensures Same(PosAt(f[i].poly, pos, start, |f[i].poly|), pos, width, height, flat)
  {
    var poly := f[i].poly;
    FitsLoops(f, width, height, i);
    if flat {
      PosAtPrefix(poly, pos, start, |poly|);
    } else {
      PosFits(poly, pos, start, |poly|, width, height);
      ModUnique(start + |poly|, |poly|, 1, start);
    }
  }

  /** The tour is a walk on the torus without jumps back to its start, and one in the plane if every outline closes
      there. */
  lemma {:induction false} VisitLeads(f: Forest, i: nat, pos: Vec, start: nat, width: int, height: int, flat: bool)
    requires Walkable(f, width, height, flat) && i < |f| && start < |f[i].poly|
    requires Congruent(pos, f[i].poly[start].pos, width, height)
    ensures Leads(Visit(f, i, pos, start), pos, pos, width, height, flat)
    decreases |f| - i, 2, 0
  {
    FitsLoops(f, width, height, i);
    hide Walkable, Fits, Congruent, Same;
    AroundLeads(f, i, pos, start, |f[i].poly|, width, height, flat);
    WalkReturns(f, i, pos, start, width, height, flat);
    LeadsTo(Visit(f, i, pos, start), pos, PosAt(f[i].poly, pos, start, |f[i].poly|), pos, width, height, flat);
  }

  lemma RoundLeads(a: seq<Rec>, b: seq<Rec>, r: Rec, from: Vec, width: int, height: int, flat: bool)
    requires width > 0 && height > 0
    requires Leads(a, from, r.pos, width, height, flat) && Leads(b, r.pos, r.pos, width, height, flat)
    ensures Leads(a + b + [r], from, Plus(r.pos, r.off), width, height, flat)
  {
    hide Leads;
    LeadsOne(r, width, height, flat);
    LeadsOn(a, b, from, r.pos, r.pos, width, height, flat);
    LeadsOn(a + b, [r], from, r.pos, Plus(r.pos, r.off), width, height, flat);
  }

  lemma {:induction false} AroundLeads(f: Forest, i: nat, pos: Vec, start: nat, n: nat, width: int, height: int,
                                       flat: bool)
    requires Walkable(f, width, height, flat) && i < |f| && start < |f[i].poly|
    requires Congruent(pos, f[i].poly[start].pos, width, height)
    ensures Leads(Around(f, i, pos, start, n), pos, PosAt(f[i].poly, pos, start, n), width, height, flat)
    decreases |f| - i, 1, n
  {
    if n > 0 {
      hide Fits, Congruent, Same, Corner, Leads, LinksAt;
      FitsLoops(f, width, height, i);
      var c := Corner(f[i].poly, start, n - 1);
      var at := PosAt(f[i].poly, pos, start, n - 1);
      AroundLeads(f, i, pos, start, n - 1, width, height, flat);
      PosFits(f[i].poly, pos, start, n - 1, width, height);
      LinksAtLead(f, i, at, c, |f[i].links|, width, height, flat);
      RoundLeads(Around(f, i, pos, start, n - 1), LinksAt(f, i, at, c, |f[i].links|), Rec(at, f[i].poly[c].off, false),
                 pos, width, height, flat);
    }
  }

  lemma {:induction false} LinksAtLead(f: Forest, i: nat, at: Vec, c: nat, j: nat, width: int, height: int, flat: bool)
    requires Walkable(f, width, height, flat) && i < |f| && c < |f[i].poly| && j <= |f[i].links|
    requires Congruent(at, f[i].poly[c].pos, width, height)
    ensures Leads(LinksAt(f, i, at, c, j), at, at, width, height, flat)
    decreases |f| - i, 0, j
  {
    if j > 0 {
      hide ClosedOutline;
      var l := f[i].links[j - 1];
      assert LinkOk(f, i, l);
      LinksAtLead(f, i, at, c, j - 1, width, height, flat);
      var a := LinksAt(f, i, at, c, j - 1);
      if l.start == c {
        var to := Plus(at, l.off);
        CongruentPlus(at, f[i].poly[c].pos, l.off, width, height);
        VisitLeads(f, l.child, to, l.index, width, height, flat);
        LinkLeads(a, at, l.off, Visit(f, l.child, to, l.index), width, height, flat);
      } else {
        assert a + [] == a;
      }
    }
  }

  /** Out along a link, a walk that returns, and back. */
  lemma LinkLeads(a: seq<Rec>, at: Vec, off: Vec, v: seq<Rec>, width: int, height: int, flat: bool)
    requires width > 0 && height > 0 && Leads(a, at, at, width, height, flat)
    requires Leads(v, Plus(at, off), Plus(at, off), width, height, flat)
    ensures Leads(a + ([Rec(at, off, true)] + v + [Rec(Plus(at, off), Neg(off), true)]), at, at, width, height, flat)
  {
    hide Same, Leads;
    var to, u, w := Plus(at, off), Rec(at, off, true), Rec(Plus(at, off), Neg(off), true);
    LeadsOne(u, width, height, flat);
    LeadsOne(w, width, height, flat);
    assert Plus(to, Neg(off)) == at;
    LeadsOn([u], v, at, to, to, width, height, flat);
    LeadsOn([u] + v, [w], at, to, at, width, height, flat);
    LeadsOn(a, [u] + v + [w], at, at, at, width, height, flat);
  }
}
