/** Visible records of a merged outline are edges of the outlines it joins, and so border edges. */
module VisibleRecs {
  import opened Torus
  import opened Blocks
  import opened Partition
  import opened Outline
  import opened Trace
  import opened EdgeCover
  import opened ClosestPair
  import opened Winding
  import opened Tour
  import opened Conversion

  ghost predicate IsUnit(v: Vec) { exists d: Dir :: v == Unit(d) }

  ghost predicate UnitRecs(recs: seq<Rec>) {
    forall t :: 0 <= t < |recs| && !recs[t].hidden ==> IsUnit(recs[t].off)
  }

  lemma UnitsJoin(a: seq<Rec>, b: seq<Rec>)
    requires UnitRecs(a) && UnitRecs(b)
    ensures UnitRecs(a + b)
  {
    hide IsUnit;
  }

  lemma HeadsUnit(poly: seq<Edge>, c: nat)
    requires Heads(poly) && c < |poly|
    ensures IsUnit(poly[c].off)
  {
    hide Unit;
    assert poly[c].off == Unit(DirsOf(poly)[c]);
  }

  ghost predicate AllHeads(f: Forest) { forall k :: 0 <= k < |f| ==> Heads(f[k].poly) }

  lemma {:induction false} VisitUnits(f: Forest, i: nat, pos: Vec, start: nat)
    requires WellFormed(f) && i < |f| && AllHeads(f)
    ensures UnitRecs(Visit(f, i, pos, start))
    decreases |f| - i, 2, 0
  {
    AroundUnits(f, i, pos, start, |f[i].poly|);
  }

  lemma {:induction false} AroundUnits(f: Forest, i: nat, pos: Vec, start: nat, n: nat)
    requires WellFormed(f) && i < |f| && AllHeads(f)
    ensures UnitRecs(Around(f, i, pos, start, n))
    decreases |f| - i, 1, n
  {
    if n > 0 {
      hide Heads, LinksAt, PosAt, IsUnit, Corner;
      var c, at := Corner(f[i].poly, start, n - 1), PosAt(f[i].poly, pos, start, n - 1);
      AroundUnits(f, i, pos, start, n - 1);
      LinksAtUnits(f, i, at, c, |f[i].links|);
      HeadsUnit(f[i].poly, c);
      UnitsJoin(Around(f, i, pos, start, n - 1), LinksAt(f, i, at, c, |f[i].links|));
      UnitsJoin(Around(f, i, pos, start, n - 1) + LinksAt(f, i, at, c, |f[i].links|),
                [Rec(at, f[i].poly[c].off, false)]);
    }
  }

  lemma {:induction false} LinksAtUnits(f: Forest, i: nat, at: Vec, c: nat, j: nat)
    requires WellFormed(f) && i < |f| && AllHeads(f) && j <= |f[i].links|
    ensures UnitRecs(LinksAt(f, i, at, c, j))
    decreases |f| - i, 0, j
  {
    if j > 0 {
      hide AllHeads, Visit, IsUnit;
      var l := f[i].links[j - 1];
      assert LinkOk(f, i, l);
      LinksAtUnits(f, i, at, c, j - 1);
      VisitUnits(f, l.child, Plus(at, l.off), l.index);
    }
  }

  // ----- Shown edges

  lemma {:induction false} ShownPositive(recs: seq<Rec>, t: nat, d: Dir, width: int, height: int)
    requires width > 0 && height > 0 && t < |recs| && !recs[t].hidden && recs[t].off == Unit(d)
    ensures Shown(recs, State(Wrap(recs[t].pos, width, height), d), width, height) > 0
    decreases |recs|
  {
    hide Unit, Wrap;
    var n, s := |recs| - 1, State(Wrap(recs[t].pos, width, height), d);
    ShownNatural(recs[..n], s, width, height);
    if t < n { ShownPositive(recs[..n], t, d, width, height); }
  }

  lemma {:induction false} ShownNatural(recs: seq<Rec>, s: State, width: int, height: int)
    requires width > 0 && height > 0
    ensures Shown(recs, s, width, height) >= 0
    decreases |recs|
  {
    hide Unit, Wrap;
    if recs != [] { ShownNatural(recs[..|recs| - 1], s, width, height); }
  }

  /** The record is a border edge of part k. */
  ghost predicate OnBorder(m: BlockMap, labels: Labels, k: nat, r: Rec)
    requires m.Valid() && labels.Valid()
  {
    exists d: Dir :: r.off == Unit(d) && var s := State(m.Home(r.pos), d); Boundary(m, s) && InPart(labels, s, k)
  }

  /** Records that show exactly the border of a part, in unit steps, show nothing else. */
  lemma VisibleOnBorder(m: BlockMap, labels: Labels, k: nat, recs: seq<Rec>)
    requires m.Valid() && labels.Valid() && UnitRecs(recs)
    requires forall s :: Shown(recs, s, m.width, m.height) == if Boundary(m, s) && InPart(labels, s, k) then 1 else 0
    ensures forall t :: 0 <= t < |recs| && !recs[t].hidden ==> OnBorder(m, labels, k, recs[t])
  {
    hide Boundary, InPart, Shown, Unit;
    forall t | 0 <= t < |recs| && !recs[t].hidden ensures OnBorder(m, labels, k, recs[t]) {
      assert IsUnit(recs[t].off);
      var d: Dir :| recs[t].off == Unit(d);
      ShownPositive(recs, t, d, m.width, m.height);
    }
  }
}
