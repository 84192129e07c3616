/** Where the tour of a tree bends: at corners of outlines where no link starts or arrives. */
module Bends {
  import opened Torus
  import opened Trace
  import opened ClosestPair
  import opened Tour

  /** Two records in a row that do not run on into each other. */
  ghost predicate HasTurn(recs: seq<Rec>) {
    exists t :: 0 < t < |recs| && !Parallel(recs[t - 1].off, recs[t].off)
  }

  /** The same on the closed list. */
  ghost predicate Bent(recs: seq<Rec>) {
    recs != [] && (HasTurn(recs) || !Parallel(recs[|recs| - 1].off, recs[0].off))
  }

  lemma TurnWithin(a: seq<Rec>, b: seq<Rec>, c: seq<Rec>)
    requires HasTurn(b)
    ensures HasTurn(a + b + c)
  {
    var t :| 0 < t < |b| && !Parallel(b[t - 1].off, b[t].off);
    var r := a + b + c;
    assert r[|a| + t - 1] == b[t - 1] && r[|a| + t] == b[t];
  }

  lemma TurnBetween(a: seq<Rec>, b: seq<Rec>)
    requires a != [] && b != [] && !Parallel(a[|a| - 1].off, b[0].off)
    ensures HasTurn(a + b)
  {
    var r := a + b;
    assert r[|a| - 1] == a[|a| - 1] && r[|a|] == b[0];
  }

  /** The corner before corner c. */
  function PrevCorner(poly: seq<Edge>, c: nat): nat
    requires c < |poly|
  {
    if c == 0 then |poly| - 1 else c - 1
  }

  /** The outline itself bends at corner c. */
  predicate Changes(poly: seq<Edge>, c: nat)
    requires c < |poly|
  {
    !Parallel(poly[PrevCorner(poly, c)].off, poly[c].off)
  }

  /** The corners passed on the way round, counted from start. */
  lemma CornerFrom(poly: seq<Edge>, start: nat, c: nat) returns (n: nat)
    requires start < |poly| && c < |poly|
    ensures n < |poly| && Corner(poly, start, n) == c && (c == start ==> n == 0)
    ensures c != start ==> n > 0 && Corner(poly, start, n - 1) == PrevCorner(poly, c)
  {
    var len := |poly|;
    n := if c >= start then c - start else c - start + len;
    ModUnique(start + n, len, if c >= start then 0 else 1, c);
    if n > 0 {
      if c > start { ModUnique(start + n - 1, len, 0, c - 1); }
      else if c == 0 { ModUnique(start + n - 1, len, 0, len - 1); }
      else { ModUnique(start + n - 1, len, 1, c - 1); }
    }
  }

  lemma {:induction false} NoLinksAt(f: Forest, i: nat, at: Vec, c: nat, j: nat)
    requires WellFormed(f) && i < |f| && j <= |f[i].links| && forall k :: 0 <= k < j ==> f[i].links[k].start != c
    ensures LinksAt(f, i, at, c, j) == []
  {
    if j > 0 {
      hide Visit;
      NoLinksAt(f, i, at, c, j - 1);
      assert LinkOk(f, i, f[i].links[j - 1]);
    }
  }

  /** The round over n corners ends with the edge from the last of them. */
  lemma AroundEnds(f: Forest, i: nat, pos: Vec, start: nat, n: nat)
    requires WellFormed(f) && i < |f| && n > 0
    ensures var recs := Around(f, i, pos, start, n);
            recs != [] && recs[|recs| - 1].off == f[i].poly[Corner(f[i].poly, start, n - 1)].off
  {
    hide LinksAt, Corner, PosAt;
  }

  lemma {:induction false} AroundMore(f: Forest, i: nat, pos: Vec, start: nat, k: nat, n: nat)
    requires WellFormed(f) && i < |f| && k <= n && HasTurn(Around(f, i, pos, start, k))
    ensures HasTurn(Around(f, i, pos, start, n))
    decreases n
  {
    if k < n {
      hide LinksAt, Corner, PosAt, HasTurn;
      AroundMore(f, i, pos, start, k, n - 1);
      var c, at := Corner(f[i].poly, start, n - 1), PosAt(f[i].poly, pos, start, n - 1);
      var a, b := Around(f, i, pos, start, n - 1), LinksAt(f, i, at, c, |f[i].links|);
      var r := Rec(at, f[i].poly[c].off, false);
      TurnWithin([], a, b + [r]);
      assert [] + a + (b + [r]) == a + b + [r];
    }
  }

  /** A bend of the outline at a corner without links, other than the first, is a bend of the tour. */
  lemma BareCorner(f: Forest, i: nat, pos: Vec, start: nat, c: nat)
    requires WellFormed(f) && i < |f| && start < |f[i].poly| && c < |f[i].poly| && c != start
    requires Changes(f[i].poly, c) && forall k :: 0 <= k < |f[i].links| ==> f[i].links[k].start != c
    ensures HasTurn(Visit(f, i, pos, start))
  {
    var n := CornerFrom(f[i].poly, start, c);
    var at := PosAt(f[i].poly, pos, start, n);
    hide HasTurn, LinksAt, Corner, PosAt;
    NoLinksAt(f, i, at, c, |f[i].links|);
    AroundEnds(f, i, pos, start, n);
    var a, r := Around(f, i, pos, start, n), Rec(at, f[i].poly[c].off, false);
    TurnBetween(a, [r]);
    assert a + [] + [r] == a + [r];
    AroundMore(f, i, pos, start, n + 1, |f[i].poly|);
  }

  /** So is the first corner of the root, where the list closes. */
  lemma BareStart(f: Forest, pos: Vec)
    requires WellFormed(f) && |f| > 0 && Changes(f[0].poly, 0)
    requires forall k :: 0 <= k < |f[0].links| ==> f[0].links[k].start != 0
    ensures Bent(Visit(f, 0, pos, 0))
  {
    var len := |f[0].poly|;
    AroundEnds(f, 0, pos, 0, len);
    ModUnique(len - 1, len, 0, len - 1);
    ModUnique(0, len, 0, 0);
    NoLinksAt(f, 0, pos, 0, |f[0].links|);
    assert Around(f, 0, pos, 0, 0) == [];
    assert Around(f, 0, pos, 0, 1) == [] + [] + [Rec(pos, f[0].poly[0].off, false)];
    AroundStartsWith(f, 0, pos, 0, len);
  }

  lemma {:induction false} AroundStartsWith(f: Forest, i: nat, pos: Vec, start: nat, n: nat)
    requires WellFormed(f) && i < |f| && n > 0
    ensures Around(f, i, pos, start, 1) <= Around(f, i, pos, start, n)
    decreases n
  {
    if n > 1 {
      hide LinksAt, Corner, PosAt;
      AroundStartsWith(f, i, pos, start, n - 1);
    }
  }

  /** The way back over the last link bends into the edge that follows, unless the two are parallel. */
  lemma LastLinkTurn(f: Forest, i: nat, pos: Vec, start: nat)
    requires WellFormed(f) && i < |f| && start < |f[i].poly| && f[i].links != []
    requires LinkOk(f, i, f[i].links[|f[i].links| - 1])
    requires var l := f[i].links[|f[i].links| - 1]; !Parallel(l.off, f[i].poly[l.start].off)
    ensures HasTurn(Visit(f, i, pos, start))
  {
    var j := |f[i].links|;
    var l := f[i].links[j - 1];
    var n := CornerFrom(f[i].poly, start, l.start);
    var at := PosAt(f[i].poly, pos, start, n);
    NegParallel(l.off, f[i].poly[l.start].off);
    LinksAtEnds(f, i, at, l.start, j);
    hide HasTurn, LinksAt, Corner, PosAt, Parallel;
    var a, b := Around(f, i, pos, start, n), LinksAt(f, i, at, l.start, j);
    TurnBetween(a + b, [Rec(at, f[i].poly[l.start].off, false)]);
    AroundMore(f, i, pos, start, n + 1, |f[i].poly|);
  }

  lemma LinksAtEnds(f: Forest, i: nat, at: Vec, c: nat, j: nat)
    requires WellFormed(f) && i < |f| && 0 < j <= |f[i].links| && f[i].links[j - 1].start == c
    ensures var recs := LinksAt(f, i, at, c, j); recs != [] && recs[|recs| - 1].off == Neg(f[i].links[j - 1].off)
  {
    hide Visit;
    assert LinkOk(f, i, f[i].links[j - 1]);
  }

  lemma NegParallel(a: Vec, b: Vec)
    ensures Parallel(Neg(a), b) <==> Parallel(a, b)
  {
    assert (-a.x) * b.y == -(a.x * b.y) && (-a.y) * b.x == -(a.y * b.x);
  }

  // ----- Bends below

  /** The tour of outline i and all below, entered at corner start, bends wherever it is placed. */
  ghost predicate TurnsIn(f: Forest, i: nat, start: nat)
    requires WellFormed(f) && i < |f|
  {
    forall pos :: HasTurn(Visit(f, i, pos, start))
  }

  lemma {:induction false} LinksAtTurn(f: Forest, i: nat, at: Vec, k: nat, j: nat)
    requires WellFormed(f) && i < |f| && k < j <= |f[i].links| && LinkOk(f, i, f[i].links[k])
    requires TurnsIn(f, f[i].links[k].child, f[i].links[k].index)
    ensures HasTurn(LinksAt(f, i, at, f[i].links[k].start, j))
    decreases j
  {
    hide Visit, HasTurn;
    var c, l := f[i].links[k].start, f[i].links[j - 1];
    assert LinkOk(f, i, l);
    var a := LinksAt(f, i, at, c, j - 1);
    var to := Plus(at, l.off);
    var u, w := Rec(at, l.off, true), Rec(to, Neg(l.off), true);
    if k == j - 1 {
      TurnWithin(a + [u], Visit(f, l.child, to, l.index), [w]);
      assert a + [u] + Visit(f, l.child, to, l.index) + [w] == a + ([u] + Visit(f, l.child, to, l.index) + [w]);
    } else {
      LinksAtTurn(f, i, at, k, j - 1);
      var b := if l.start == c then [u] + Visit(f, l.child, to, l.index) + [w] else [];
      TurnWithin([], a, b);
      assert [] + a + b == a + b;
    }
  }

  /** A bend below an outline is a bend of its tour. */
  lemma TurnsUp(f: Forest, i: nat, start: nat, k: nat)
    requires WellFormed(f) && i < |f| && start < |f[i].poly| && k < |f[i].links| && LinkOk(f, i, f[i].links[k])
    requires TurnsIn(f, f[i].links[k].child, f[i].links[k].index)
    ensures TurnsIn(f, i, start)
  {
    var c := f[i].links[k].start;
    var n := CornerFrom(f[i].poly, start, c);
    hide HasTurn, LinksAt, Corner, PosAt;
    forall pos ensures HasTurn(Visit(f, i, pos, start)) {
      var at := PosAt(f[i].poly, pos, start, n);
      LinksAtTurn(f, i, at, k, |f[i].links|);
      var a, b := Around(f, i, pos, start, n), LinksAt(f, i, at, c, |f[i].links|);
      TurnWithin(a, b, [Rec(at, f[i].poly[c].off, false)]);
      AroundMore(f, i, pos, start, n + 1, |f[i].poly|);
    }
  }

  /** The corner at which the tour enters outline k. */
  ghost function EntryCorner(f: Forest, slot: seq<(nat, nat)>, k: nat): (c: nat)
    requires IsTree(f, slot) && k < |f|
    ensures c < |f[k].poly|
  {
    if k == 0 then 0
    else
      assert LinkOk(f, slot[k].0, f[slot[k].0].links[slot[k].1]);
      f[slot[k].0].links[slot[k].1].index
  }

  /** A bend anywhere in the tree is one of the whole tour. */
  lemma {:induction false} TurnsAtRoot(f: Forest, slot: seq<(nat, nat)>, k: nat)
    requires IsTree(f, slot) && k < |f| && TurnsIn(f, k, EntryCorner(f, slot, k))
    ensures TurnsIn(f, 0, 0)
    decreases k
  {
    if k > 0 {
      var i, j := slot[k].0, slot[k].1;
      assert LinkOk(f, i, f[i].links[j]);
      hide TurnsIn;
      TurnsUp(f, i, EntryCorner(f, slot, i), j);
      TurnsAtRoot(f, slot, i);
    }
  }

  /** No link starts at corner c of outline k, nor does the tour enter there. */
  ghost predicate Bare(f: Forest, slot: seq<(nat, nat)>, k: nat, c: nat)
    requires IsTree(f, slot) && k < |f|
  {
    (forall j :: 0 <= j < |f[k].links| ==> f[k].links[j].start != c) && (k > 0 ==> c != EntryCorner(f, slot, k))
  }

  /** An outline's bend at a bare corner shows in the tour. */
  lemma BareBends(f: Forest, slot: seq<(nat, nat)>, k: nat, c: nat, pos: Vec)
    requires IsTree(f, slot) && k < |f| && c < |f[k].poly| && Changes(f[k].poly, c) && Bare(f, slot, k, c)
    ensures Bent(Visit(f, 0, pos, 0))
  {
    if c == EntryCorner(f, slot, k) {
      BareStart(f, pos);
    } else {
      hide Visit, HasTurn;
      var start := EntryCorner(f, slot, k);
      forall p: Vec ensures HasTurn(Visit(f, k, p, start)) { BareCorner(f, k, p, start, c); }
      TurnsAtRoot(f, slot, k);
      TurnLong(Visit(f, 0, pos, 0));
    }
  }

  lemma TurnLong(recs: seq<Rec>)
    requires HasTurn(recs)
    ensures Bent(recs)
  {}

  // ----- Counting

  ghost function ChangeSet(poly: seq<Edge>): set<nat> { set c: nat | c < |poly| && Changes(poly, c) }

  /** Links that start or arrive at outline k. */
  ghost function Degree(f: Forest, k: nat): nat
    requires k < |f|
  {
    |f[k].links| + if k > 0 then 1 else 0
  }

  lemma {:induction false} StartsFew(links: seq<TreeLink>, n: nat)
    requires n <= |links|
    ensures |set j: nat | j < n :: links[j].start| <= n
  {
    var s := set j: nat | j < n :: links[j].start;
    if n > 0 {
      StartsFew(links, n - 1);
      assert s == (set j: nat | j < n - 1 :: links[j].start) + {links[n - 1].start};
    } else {
      assert s == {};
    }
  }

  lemma {:induction false} SubsetSize(a: set<nat>, b: set<nat>)
    requires a <= b
    ensures |a| <= |b|
  {
    assert b == a + (b - a);
  }

  /** Unless the tour bends, every bend of an outline is covered by a link. */
  lemma ChangesCovered(f: Forest, slot: seq<(nat, nat)>, k: nat, pos: Vec)
    requires IsTree(f, slot) && k < |f| && !Bent(Visit(f, 0, pos, 0))
    ensures |ChangeSet(f[k].poly)| <= Degree(f, k)
  {
    hide Visit, Bent, IsTree;
    var links := f[k].links;
    var starts := set j: nat | j < |links| :: links[j].start;
    var entry: set<nat> := if k > 0 then {EntryCorner(f, slot, k)} else {};
    forall c: nat | c < |f[k].poly| && Changes(f[k].poly, c) ensures c in starts + entry {
      if c !in starts + entry {
        forall j | 0 <= j < |links| ensures links[j].start != c { assert links[j].start in starts; }
        BareBends(f, slot, k, c, pos);
      }
    }
    StartsFew(links, |links|);
    SubsetSize(ChangeSet(f[k].poly), starts + entry);
  }

  ghost function DegreeSum(f: Forest, n: nat): nat
    requires n <= |f|
  {
    if n == 0 then 0 else DegreeSum(f, n - 1) + Degree(f, n - 1)
  }

  /** Each link counted once. */
  function One(): int -> int { (k: int) => 1 }

  lemma {:induction false} OnesBelow(f: Forest, i: nat, n: nat)
    requires i < |f| && n <= |f[i].links|
    ensures ChildSum(f, i, One(), n) == n
  {
    if n > 0 { OnesBelow(f, i, n - 1); }
  }

  lemma {:induction false} DegreesAre(f: Forest, n: nat)
    requires n <= |f|
    ensures DegreeSum(f, n) == AllChildSum(f, One(), n) + if n > 0 then n - 1 else 0
  {
    if n > 0 {
      DegreesAre(f, n - 1);
      OnesBelow(f, n - 1, |f[n - 1].links|);
    }
  }

  lemma {:induction false} OnesUpTo(n: nat)
    ensures RangeSum(One(), n) == n
  {
    if n > 0 { OnesUpTo(n - 1); }
  }

  /** A tree of n outlines has n - 1 links, each with two ends. */
  lemma TreeDegrees(f: Forest, slot: seq<(nat, nat)>)
    requires IsTree(f, slot)
    ensures DegreeSum(f, |f|) == 2 * (|f| - 1)
  {
    DegreesAre(f, |f|);
    AllChildSumSame(f, slot, One(), |f|);
    ChildrenBelow(f, slot, One(), |f|);
    OnesUpTo(|f|);
  }
}
