/** Walking along the border between solid and open space, solid on the left. */
module Outline {
  import opened Torus
  import opened Blocks

  /** A unit border edge: it leaves corner v of the torus in direction d. */
  datatype State = State(v: Vec, d: Dir)

  /** Solid just left of the edge, open just right of it. */
  predicate Borders(m: BlockMap, v: Vec, d: Dir)
    requires m.Valid()
  {
    Solid(m, v, Turned(d, 1)) && !Solid(m, v, d)
  }

  predicate Boundary(m: BlockMap, s: State)
    requires m.Valid()
  {
    m.InRange(s.v) && Borders(m, s.v, s.d)
  }

  function Head(m: BlockMap, s: State): Vec
    requires m.Valid()
  {
    m.Home(Plus(s.v, Unit(s.d)))
  }

  /** Seen from its far end, the edge has the same solid and open sides. */
  lemma EdgeSides(m: BlockMap, v: Vec, d: Dir)
    requires m.Valid()
    ensures var w := Plus(v, Unit(d));
            Borders(m, v, d) <==> Solid(m, w, Turned(d, 4)) && !Solid(m, w, Turned(d, 5))
  {
    assert d == 0 || d == 1 || d == 2 || d == 3 || d == 4 || d == 5 || d == 6 || d == 7;
  }

  lemma BordersHome(m: BlockMap, v: Vec, d: Dir)
    requires m.Valid()
    ensures Borders(m, m.Home(v), d) == Borders(m, v, d)
  {
    SolidHome(m, v, d);
    SolidHome(m, v, Turned(d, 1));
  }

  type Ring = r: seq<bool> | |r| == 8 witness seq(8, _ => false)

  /** The eight sectors around corner w. */
  function Sectors(m: BlockMap, w: Vec): (r: Ring)
    requires m.Valid()
    ensures forall d: Dir :: r[d] == Solid(m, w, d)
  {
    seq(8, d requires 0 <= d < 8 => Solid(m, w, d))
  }

  /** The leftmost open direction for a walker arriving in direction d. */
  function NextDir(r: Ring, d: Dir): Dir {
    if !r[Turned(d, 3)] then Turned(d, 3)
    else if !r[Turned(d, 2)] then Turned(d, 2)
    else if !r[Turned(d, 1)] then Turned(d, 1)
    else if !r[d] then d
    else if !r[Turned(d, -1)] then Turned(d, -1)
    else if !r[Turned(d, -2)] then Turned(d, -2)
    else Turned(d, -3)
  }

  /** The same search started at its k-th candidate. */
  function NextFrom(r: Ring, d: Dir, k: nat): Dir
    requires k <= 6
    decreases 6 - k
  {
    if k == 6 || !r[Turned(d, 3 - k)] then Turned(d, 3 - k) else NextFrom(r, d, k + 1)
  }

  lemma NextFromStart(r: Ring, d: Dir)
    ensures NextDir(r, d) == NextFrom(r, d, 0)
  {
    assert NextFrom(r, d, 4) ==
           if !r[Turned(d, -1)] then Turned(d, -1) else if !r[Turned(d, -2)] then Turned(d, -2) else Turned(d, -3);
    assert NextFrom(r, d, 2) == if !r[Turned(d, 1)] then Turned(d, 1) else if !r[d] then d else NextFrom(r, d, 4);
  }

  /** The direction of arrival of a walker leaving in direction e. */
  function PrevDir(r: Ring, e: Dir): Dir {
    if !r[Turned(e, 2)] then Turned(e, -3)
    else if !r[Turned(e, 3)] then Turned(e, -2)
    else if !r[Turned(e, 4)] then Turned(e, -1)
    else if !r[Turned(e, 5)] then e
    else if !r[Turned(e, 6)] then Turned(e, 1)
    else if !r[Turned(e, 7)] then Turned(e, 2)
    else Turned(e, 3)
  }

  lemma TurnOpens(r: Ring, d: Dir)
    requires r[Turned(d, 4)] && !r[Turned(d, 5)]
    ensures var e := NextDir(r, d); r[Turned(e, 1)] && !r[e]
  {}

  /** Every sector from the departure's left side round to the arrival's left side is solid. */
  lemma TurnSolid(r: Ring, d: Dir) returns (k: nat)
    requires r[Turned(d, 4)] && !r[Turned(d, 5)]
    ensures k <= 6 && NextDir(r, d) == Turned(d, 3 - k)
    ensures forall i {:trigger Turned(d, i)} :: 4 - k <= i <= 4 ==> r[Turned(d, i)]
  {
    NextFromStart(r, d);
    k := 0;
    while k < 6 && r[Turned(d, 3 - k)]
      invariant k <= 6 && NextDir(r, d) == NextFrom(r, d, k)
      invariant forall i {:trigger Turned(d, i)} :: 4 - k <= i <= 4 ==> r[Turned(d, i)]
    {
      k := k + 1;
    }
  }

  /** The same search of PrevDir, started at sector i. */
  function PrevFrom(r: Ring, e: Dir, i: nat): Dir
    requires 2 <= i <= 8
    decreases 8 - i
  {
    if i == 8 then Turned(e, 3) else if !r[Turned(e, i)] then Turned(e, i - 5) else PrevFrom(r, e, i + 1)
  }

  lemma PrevFromStart(r: Ring, e: Dir)
    ensures PrevDir(r, e) == PrevFrom(r, e, 2)
  {
    hide Turned;
    TurnedWhole(e);
    assert PrevFrom(r, e, 6) ==
           if !r[Turned(e, 6)] then Turned(e, 1) else if !r[Turned(e, 7)] then Turned(e, 2) else Turned(e, 3);
    assert PrevFrom(r, e, 4) ==
           if !r[Turned(e, 4)] then Turned(e, -1) else if !r[Turned(e, 5)] then e else PrevFrom(r, e, 6);
  }

  lemma TurnBack(r: Ring, d: Dir)
    requires r[Turned(d, 4)] && !r[Turned(d, 5)]
    ensures PrevDir(r, NextDir(r, d)) == d
  {
    hide Turned, NextDir, PrevDir;
    var k: int := TurnSolid(r, d);
    var e := NextDir(r, d);
    PrevFromStart(r, e);
    TurnedWhole(d);
    for i := 2 to 2 + k
      invariant PrevFrom(r, e, 2) == PrevFrom(r, e, i)
    {
      TurnedTwice(d, 3 - k, i);
      assert r[Turned(d, 3 - k + i)];
    }
    TurnedTwice(d, 3 - k, k - 3);
    if k < 6 { TurnedTwice(d, 3 - k, 2 + k); }
  }

  lemma TurnForth(r: Ring, e: Dir)
    requires r[Turned(e, 1)] && !r[e]
    ensures var d := PrevDir(r, e); r[Turned(d, 4)] && !r[Turned(d, 5)] && NextDir(r, d) == e
  {
    hide Turned, NextDir, PrevDir;
    PrevFromStart(r, e);
    TurnedWhole(e);
    var k: int := 0;
    while k < 6 && r[Turned(e, k + 2)]
      invariant 0 <= k <= 6 && PrevDir(r, e) == PrevFrom(r, e, k + 2)
      invariant forall i {:trigger Turned(e, i)} :: 1 <= i <= k + 1 ==> r[Turned(e, i)]
    {
      k := k + 1;
    }
    var d := PrevDir(r, e);
    assert d == Turned(e, k - 3);
    NextFromStart(r, d);
    for j := 0 to k
      invariant NextDir(r, d) == NextFrom(r, d, j)
    {
      TurnedTwice(e, k - 3, 3 - j);
      assert r[Turned(e, k - j)];
    }
    TurnedTwice(e, k - 3, 3 - k);
    TurnedTwice(e, k - 3, 4);
    TurnedTwice(e, k - 3, 5);
    assert r[Turned(e, k + 1)];
  }

  function Step(m: BlockMap, s: State): State
    requires m.Valid()
  {
    State(Head(m, s), NextDir(Sectors(m, Head(m, s)), s.d))
  }

  function Back(m: BlockMap, s: State): State
    requires m.Valid()
  {
    var d := PrevDir(Sectors(m, s.v), s.d);
    State(m.Home(Minus(s.v, Unit(d))), d)
  }

  lemma ModThere(x: int, u: int, n: int)
    requires 0 <= x < n
    ensures ((x + u) % n - u) % n == x
  {
    ModPlus(x + u, -u, n);
    ModUnique(x, n, 0, x);
  }

  lemma MinusPlus(m: BlockMap, v: Vec, u: Vec)
    requires m.Valid() && m.InRange(v)
    ensures m.Home(Minus(m.Home(Plus(v, u)), u)) == v
    ensures m.Home(Plus(m.Home(Minus(v, u)), u)) == v
  {
    ModThere(v.x, u.x, m.width);
    ModThere(v.x, -u.x, m.width);
    ModThere(v.y, u.y, m.height);
    ModThere(v.y, -u.y, m.height);
  }

  /** Walking on stays on the border, and walking back undoes it. */
  lemma StepForth(m: BlockMap, s: State)
    requires m.Valid() && Boundary(m, s)
    ensures Boundary(m, Step(m, s)) && Back(m, Step(m, s)) == s
  {
    var w := Plus(s.v, Unit(s.d));
    EdgeSides(m, s.v, s.d);
    SolidHome(m, w, Turned(s.d, 4));
    SolidHome(m, w, Turned(s.d, 5));
    TurnOpens(Sectors(m, m.Home(w)), s.d);
    TurnBack(Sectors(m, m.Home(w)), s.d);
    MinusPlus(m, s.v, Unit(s.d));
  }

  lemma StepBack(m: BlockMap, s: State)
    requires m.Valid() && Boundary(m, s)
    ensures Boundary(m, Back(m, s)) && Step(m, Back(m, s)) == s
  {
    TurnForth(Sectors(m, s.v), s.d);
    var d := PrevDir(Sectors(m, s.v), s.d);
    var u := Minus(s.v, Unit(d));
    assert Plus(u, Unit(d)) == s.v;
    EdgeSides(m, u, d);
    BordersHome(m, u, d);
    MinusPlus(m, s.v, Unit(d));
  }

  /** The walk goes one way only: no two border edges lead to the same next edge. */
  lemma StepInjective(m: BlockMap, s: State, t: State)
    requires m.Valid() && Boundary(m, s) && Boundary(m, t) && Step(m, s) == Step(m, t)
    ensures s == t
  {
    StepForth(m, s);
    StepForth(m, t);
  }

  ghost predicate Trail(m: BlockMap, t: seq<State>)
    requires m.Valid()
  {
    |t| > 0 &&
    (forall i :: 0 <= i < |t| ==> Boundary(m, t[i])) &&
    (forall i :: 0 < i < |t| ==> t[i] == Step(m, t[i - 1])) &&
    forall i, j :: 0 <= i < j < |t| ==> t[i] != t[j]
  }

  /** A trail that has come back to where it started. */
  ghost predicate Cycle(m: BlockMap, t: seq<State>)
    requires m.Valid()
  {
    Trail(m, t) && Step(m, t[|t| - 1]) == t[0]
  }

  lemma TrailGrows(m: BlockMap, t: seq<State>)
    requires m.Valid() && Trail(m, t) && Step(m, t[|t| - 1]) != t[0]
    ensures Trail(m, t + [Step(m, t[|t| - 1])])
  {
    var n := |t|;
    var s := Step(m, t[n - 1]);
    StepForth(m, t[n - 1]);
    forall i | 0 <= i < n
      ensures t[i] != s
    {
      if 0 < i {
        StepForth(m, t[i - 1]);
        assert Back(m, t[i]) == t[i - 1] != t[n - 1] == Back(m, s);
      }
    }
    var u := t + [s];
    forall i | 0 < i < |u| ensures u[i] == Step(m, u[i - 1]) {
      assert u[i - 1] == t[i - 1];
      if i < n { assert u[i] == t[i]; }
    }
  }

  ghost function AllStates(m: BlockMap): set<State>
    requires m.Valid()
  {
    set x, y, d: Dir | 0 <= x < m.width && 0 <= y < m.height && 0 <= d < 8 :: State(Vec(x, y), d)
  }

  ghost function Members(t: seq<State>): set<State> { set s | s in t }

  lemma TrailBounded(m: BlockMap, t: seq<State>, s: State)
    requires m.Valid() && Trail(m, t + [s])
    ensures AllStates(m) - Members(t + [s]) < AllStates(m) - Members(t)
  {
    assert (t + [s])[|t|] == s;
    assert Boundary(m, s);
    assert s == State(Vec(s.v.x, s.v.y), s.d);
    assert s in AllStates(m);
    assert s !in Members(t) by {
      forall i | 0 <= i < |t| ensures t[i] != s { assert (t + [s])[i] == t[i]; }
    }
    assert s in Members(t + [s]);
    assert Members(t) <= Members(t + [s]) by {
      forall u | u in Members(t) ensures u in Members(t + [s]) { assert u in t + [s]; }
    }
  }
}
