/** How often an outline bends: one that turns around does so at three corners or more. */
module Straight {
  import opened Torus
  import opened Trace
  import opened Winding
  import opened Tour
  import opened Bends

  /** The direction changes at corner c. */
  predicate TurnsAt(ds: seq<Dir>, c: nat)
    requires c < |ds|
  {
    Previous(ds, c) != ds[c]
  }

  lemma ParallelUnits(d: Dir, e: Dir)
    ensures Parallel(Unit(d), Unit(e)) <==> d == e || e == Turned(d, 4)
  {
    ParallelSide(Unit(d), Unit(e));
    if e == d {
      ParallelSelf(Unit(d), Unit(d));
    } else if e == Turned(d, 4) {
      OppositeUnit(d);
      ParallelSelf(Unit(d), Unit(e));
    } else {
      TurnNone(d, e);
      SideSign(d, e);
    }
    hide Unit, Parallel, Side, Turn, Turned;
  }

  lemma ParallelSide(a: Vec, b: Vec)
    ensures Parallel(a, b) <==> Side(a, b) == 0
  {
    assert a.y * b.x == b.x * a.y;
  }

  lemma ParallelSelf(a: Vec, b: Vec)
    requires b == a || b == Vec(-a.x, -a.y)
    ensures Parallel(a, b)
  {
    assert a.x * (-a.y) == a.y * (-a.x);
  }

  lemma TurnNone(d: Dir, e: Dir)
    requires d != e
    ensures Turn(d, e) != 0
  {}

  lemma OppositeUnit(d: Dir)
    ensures Unit(Turned(d, 4)) == Vec(-Unit(d).x, -Unit(d).y)
  {}

  /** Outlines do not turn straight back, so they bend wherever the direction changes. */
  lemma ChangesTurn(poly: seq<Edge>, c: nat)
    requires Heads(poly) && c < |poly|
    ensures Changes(poly, c) <==> TurnsAt(DirsOf(poly), c)
  {
    hide Unit, DirOf, Turned, Parallel;
    var ds := DirsOf(poly);
    var p := PrevCorner(poly, c);
    assert Previous(ds, c) == ds[p];
    assert poly[p].off == Unit(ds[p]) && poly[c].off == Unit(ds[c]);
    ParallelUnits(ds[p], ds[c]);
  }

  lemma {:induction false} SameDir(ds: seq<Dir>, i: nat, j: nat)
    requires i <= j < |ds| && forall c :: i < c <= j ==> !TurnsAt(ds, c)
    ensures ds[j] == ds[i]
  {
    if i < j {
      SameDir(ds, i, j - 1);
      assert !TurnsAt(ds, j);
    }
  }

  lemma {:induction false} FlatSum(ds: seq<Dir>, i: nat, j: nat)
    requires i <= j <= |ds| && forall c :: i <= c < j ==> !TurnsAt(ds, c)
    ensures TurnSum(ds, j) == TurnSum(ds, i)
  {
    if i < j {
      FlatSum(ds, i, j - 1);
      assert !TurnsAt(ds, j - 1);
      assert Turn(ds[j - 1], ds[j - 1]) == 0;
    }
  }

  lemma TurnBackAgain(d: Dir, e: Dir)
    requires e != Turned(d, 4)
    ensures Turn(d, e) + Turn(e, d) == 0
  {}

  /** With no bend but at a and b, the turns cancel. */
  lemma TwoTurns(ds: seq<Dir>, a: nat, b: nat)
    requires a < b < |ds| && forall c :: 0 <= c < |ds| && c != a && c != b ==> !TurnsAt(ds, c)
    requires ds[a] != Turned(Previous(ds, a), 4)
    ensures TurnSum(ds, |ds|) == 0
  {
    hide Turn, Turned;
    var n, d, e := |ds|, ds[b], ds[a];
    SameDir(ds, b, n - 1);
    SameDir(ds, a, b - 1);
    if a > 0 {
      assert !TurnsAt(ds, 0);
      SameDir(ds, 0, a - 1);
    }
    assert Previous(ds, a) == d && Previous(ds, b) == e;
    FlatSum(ds, 0, a);
    FlatSum(ds, a + 1, b);
    FlatSum(ds, b + 1, n);
    TurnBackAgain(d, e);
  }

  /** Nor can there be a single bend. */
  lemma OneTurn(ds: seq<Dir>, a: nat)
    requires a < |ds| && forall c :: 0 <= c < |ds| && c != a ==> !TurnsAt(ds, c)
    ensures !TurnsAt(ds, a)
  {
    SameDir(ds, a, |ds| - 1);
    if a > 0 {
      assert !TurnsAt(ds, 0);
      SameDir(ds, 0, a - 1);
    }
  }

  /** All edges go in direction d. */
  predicate IsStraight(poly: seq<Edge>, d: Dir) { forall i :: 0 <= i < |poly| ==> poly[i].off == Unit(d) }

  lemma NoTurnStraight(poly: seq<Edge>)
    requires Heads(poly) && poly != [] && forall c :: 0 <= c < |poly| ==> !TurnsAt(DirsOf(poly), c)
    ensures IsStraight(poly, DirsOf(poly)[0]) && TurnSum(DirsOf(poly), |poly|) == 0
  {
    hide Unit, DirOf;
    var ds := DirsOf(poly);
    forall i | 0 <= i < |poly| ensures poly[i].off == Unit(ds[0]) { SameDir(ds, 0, i); }
    FlatSum(ds, 0, |poly|);
  }

  lemma NoneElse(s: set<nat>, a: nat, b: nat)
    requires a in s && b in s && a != b && |s| <= 2
    ensures forall c :: c in s ==> c == a || c == b
  {
    forall c | c in s ensures c == a || c == b {
      if c != a && c != b { SubsetSize({a, b, c}, s); }
    }
  }

  lemma NoneBut(s: set<nat>, a: nat)
    requires a in s && |s| <= 1
    ensures forall c :: c in s ==> c == a
  {
    forall c | c in s ensures c == a {
      if c != a { SubsetSize({a, c}, s); }
    }
  }

  lemma ChangeSetTurns(poly: seq<Edge>, c: nat)
    requires Heads(poly) && c < |poly|
    ensures c in ChangeSet(poly) <==> TurnsAt(DirsOf(poly), c)
  {
    ChangesTurn(poly, c);
  }

  /** An outline that bends less than twice is straight. */
  lemma FewChangesStraight(poly: seq<Edge>)
    requires Heads(poly) && poly != [] && |ChangeSet(poly)| <= 1
    ensures IsStraight(poly, DirsOf(poly)[0]) && TurnSum(DirsOf(poly), |poly|) == 0
  {
    hide Heads, DirsOf, ChangeSet, IsStraight, TurnSum, Changes;
    forall c: nat | c < |poly| ensures c in ChangeSet(poly) <==> TurnsAt(DirsOf(poly), c) { ChangeSetTurns(poly, c); }
    if a: nat :| a < |poly| && TurnsAt(DirsOf(poly), a) {
      NoneBut(ChangeSet(poly), a);
      OneTurn(DirsOf(poly), a);
    }
    NoTurnStraight(poly);
  }

  /** An outline that turns around as a whole bends three times or more. */
  lemma TurningBends(poly: seq<Edge>)
    requires Heads(poly) && poly != [] && FullTurns(poly) != 0
    ensures |ChangeSet(poly)| >= 3
  {
    var s, ds := ChangeSet(poly), DirsOf(poly);
    if |s| <= 1 {
      FewChangesStraight(poly);
    } else if |s| == 2 {
      var p, q := TwoOf(s);
      var a, b := if p < q then p else q, if p < q then q else p;
      assert a < |poly| && b < |poly|;
      NoneElse(s, a, b);
      NoReverse(poly, a);
      forall c | 0 <= c < |poly| && c != a && c != b ensures !TurnsAt(ds, c) { ChangeSetTurns(poly, c); }
      TwoTurns(ds, a, b);
    }
  }

  lemma NoReverse(poly: seq<Edge>, a: nat)
    requires Heads(poly) && a < |poly|
    ensures DirsOf(poly)[a] != Turned(Previous(DirsOf(poly), a), 4)
  {
    hide DirOf, Unit, Turned;
  }

  lemma TwoOf(s: set<nat>) returns (a: nat, b: nat)
    requires |s| == 2
    ensures a in s && b in s && a != b
  {
    a :| a in s;
    assert |s - {a}| == 1;
    b :| b in s - {a};
  }

  lemma {:induction false} StraightPrefix(poly: seq<Edge>, d: Dir, n: nat)
    requires IsStraight(poly, d) && n <= |poly|
    ensures Prefix(poly, n) == Vec(n * Unit(d).x, n * Unit(d).y)
  {
    hide Unit;
    if n > 0 {
      StraightPrefix(poly, d, n - 1);
      assert n * Unit(d).x == (n - 1) * Unit(d).x + Unit(d).x && n * Unit(d).y == (n - 1) * Unit(d).y + Unit(d).y;
    }
  }
}
