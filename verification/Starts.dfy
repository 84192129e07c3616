/** Where the scans start an outline, and why these starts reach every border. */
module Starts {
  import opened Torus
  import opened Blocks
  import opened Options
  import opened Outline
  import opened Trace
  import opened EdgeCover

  /** First corner, relative to the block, and first direction of the outline a block starts. */
  datatype Start = Start(off: Vec, d: Dir)

  function StartOf(m: BlockMap, c: Vec): Option<Start>
    requires m.Valid()
  {
    var b := BlockAt(m, c);
    var l := BlockAt(m, Plus(c, Unit(4)));
    if b == UpRight then Some(Start(Vec(0, 0), 7))
    else if b == DownRight then Some(Start(Vec(1, 0), 5))
    else if b == DownLeft then Some(Start(Vec(1, 1), 3))
    else if b == UpLeft then Some(Start(Vec(0, 1), 1))
    else if b == Full && l != Full && l != DownRight && l != UpRight then Some(Start(Vec(0, 0), 6))
    else None
  }

  function StartState(m: BlockMap, c: Vec): State
    requires m.Valid() && StartOf(m, c).Some?
  {
    var st := StartOf(m, c).value;
    State(m.Home(Plus(c, st.off)), st.d)
  }

  lemma StartBorders(m: BlockMap, c: Vec)
    requires m.Valid() && StartOf(m, c).Some?
    ensures var st := StartOf(m, c).value; var v := Plus(c, st.off);
            Borders(m, v, st.d) && MarkedCell(State(v, st.d)) == Some(c) && SectorCell(v, Turned(st.d, 1)) == c
  {
    assert Plus(Plus(c, Vec(0, 0)), Unit(4)) == Plus(c, Unit(4));
  }

  lemma MarkedCellHome(m: BlockMap, v: Vec, d: Dir)
    requires m.Valid()
    ensures var a, b := MarkedCell(State(v, d)), MarkedCell(State(m.Home(v), d));
            a.Some? == b.Some? && (a.Some? ==> m.Home(a.value) == m.Home(b.value))
  {
    WrapPlus(v, Unit(4), m.width, m.height);
    WrapPlus(v, Unit(3), m.width, m.height);
    WrapPlus(v, Unit(2), m.width, m.height);
    WrapPlus(v, Vec(0, 0), m.width, m.height);
    assert Plus(v, Vec(0, 0)) == v && Plus(m.Home(v), Vec(0, 0)) == m.Home(v);
  }

  /** The start of a block is a border edge that marks the block itself. */
  lemma StartMarks(m: BlockMap, c: Vec)
    requires m.Valid() && StartOf(m, c).Some?
    ensures Boundary(m, StartState(m, c))
    ensures var k := MarkedCell(StartState(m, c)); k.Some? && m.Home(k.value) == m.Home(c)
  {
    var st := StartOf(m, c).value;
    var v := Plus(c, st.off);
    StartBorders(m, c);
    BordersHome(m, v, st.d);
    MarkedCellHome(m, v, st.d);
  }

  /** The slanted edges are starts themselves. */
  lemma SlantIsStart(m: BlockMap, s: State)
    requires m.Valid() && Boundary(m, s) && s.d % 2 == 1
    ensures MarkedCell(s).Some? && StartOf(m, MarkedCell(s).value).Some?
    ensures s == StartState(m, MarkedCell(s).value)
  {
    assert m.Home(s.v) == s.v;
    var c := MarkedCell(s).value;
    if s.d == 7 {
      assert BlockAt(m, c) == UpRight && Plus(c, Vec(0, 0)) == s.v;
    } else if s.d == 5 {
      assert BlockAt(m, c) == DownRight && Plus(c, Vec(1, 0)) == s.v;
    } else if s.d == 3 {
      assert BlockAt(m, c) == DownLeft && Plus(c, Vec(1, 1)) == s.v;
    } else {
      assert BlockAt(m, c) == UpLeft && Plus(c, Vec(0, 1)) == s.v;
    }
  }

  /** A downward edge is a start, or the start of its block comes just before or after it. */
  lemma DownNearStart(m: BlockMap, s: State)
    requires m.Valid() && Boundary(m, s) && s.d == 6
    ensures MarkedCell(s) == Some(s.v) && StartOf(m, s.v).Some?
    ensures var a := StartState(m, s.v); s == a || s == Step(m, a) || Step(m, s) == a
  {
    assert m.Home(s.v) == s.v;
    assert Plus(s.v, Vec(0, 0)) == s.v;
    var b := BlockAt(m, s.v);
    if b == DownLeft {
      DownAfterSlant(m, s);
    } else if b == UpLeft {
      DownBeforeSlant(m, s);
    } else {
      assert b == Full;
    }
  }

  lemma DownAfterSlant(m: BlockMap, s: State)
    requires m.Valid() && Boundary(m, s) && s.d == 6 && BlockAt(m, s.v) == DownLeft
    ensures s == Step(m, StartState(m, s.v))
  {
    var w := Plus(s.v, Vec(1, 1));
    WrapPlus(w, Unit(3), m.width, m.height);
    assert Plus(w, Unit(3)) == s.v && m.Home(s.v) == s.v;
    assert Head(m, State(m.Home(w), 3)) == s.v;
    assert !Sectors(m, s.v)[6];
  }

  lemma DownBeforeSlant(m: BlockMap, s: State)
    requires m.Valid() && Boundary(m, s) && s.d == 6 && BlockAt(m, s.v) == UpLeft
    ensures Step(m, s) == StartState(m, s.v)
  {
    var w := Plus(s.v, Vec(0, 1));
    assert Unit(6) == Vec(0, 1);
    assert SectorCell(w, 1) == s.v;
    SolidHome(m, w, 1);
    assert !Sectors(m, m.Home(w))[1];
  }

  /** A straight edge along a half block has a slanted neighbour. */
  lemma HalfBlockTurns(m: BlockMap, s: State)
    requires m.Valid() && Boundary(m, s) && s.d % 2 == 0 && BlockAt(m, LeftCell(s)) != Full
    ensures Step(m, s).d % 2 == 1 || Back(m, s).d % 2 == 1
  {
    hide Solid, Boundary, BlockAt, LeftCell;
    var w := Plus(s.v, Unit(s.d));
    SolidHome(m, w, Turned(s.d, 3));
    LeftTurnOpen(m, s);
    NextDirFirst(Sectors(m, m.Home(w)), s.d);
    PrevDirFirst(Sectors(m, s.v), s.d);
  }

  lemma NextDirFirst(r: Ring, d: Dir)
    ensures !r[Turned(d, 3)] ==> NextDir(r, d) == Turned(d, 3)
  {}

  lemma PrevDirFirst(r: Ring, e: Dir)
    ensures !r[Turned(e, 2)] ==> PrevDir(r, e) == Turned(e, -3)
  {}

  lemma LeftTurnOpen(m: BlockMap, s: State)
    requires m.Valid() && Boundary(m, s) && s.d % 2 == 0 && BlockAt(m, LeftCell(s)) != Full
    ensures !Solid(m, Plus(s.v, Unit(s.d)), Turned(s.d, 3)) || !Solid(m, s.v, Turned(s.d, 2))
  {
    var w := Plus(s.v, Unit(s.d));
    assert SectorCell(w, Turned(s.d, 3)) == LeftCell(s);
    assert SectorCell(s.v, Turned(s.d, 2)) == LeftCell(s);
  }

  /** A walker never turns back on the spot. */
  lemma NoReversal(r: Ring, d: Dir)
    ensures NextDir(r, d) != Turned(d, 4)
  {}

  lemma StepNoReversal(m: BlockMap, s: State)
    requires m.Valid()
    ensures Step(m, s).d != Turned(s.d, 4)
  {
    NoReversal(Sectors(m, Head(m, s)), s.d);
  }

  lemma StraightMove(m: BlockMap, s: State)
    requires m.Valid() && Boundary(m, s) && s.d % 2 == 0
    ensures Step(m, s).v == match s.d
              case 0 => Vec((s.v.x + 1) % m.width, s.v.y)
              case 2 => Vec(s.v.x, (s.v.y - 1) % m.height)
              case 4 => Vec((s.v.x - 1) % m.width, s.v.y)
              case _ => Vec(s.v.x, (s.v.y + 1) % m.height)
  {
    hide NextDir, Sectors, Borders;
    assert Step(m, s).v == m.Home(Plus(s.v, Unit(s.d)));
    ModUnique(s.v.x, m.width, 0, s.v.x);
    ModUnique(s.v.y, m.height, 0, s.v.y);
  }

  /** The distance still to go down to coordinate 1 % n; moving down by one lowers it. */
  lemma GoingDown(y: int, n: int)
    requires 0 <= y < n
    ensures var p := (y - 1) % n; (p == 0 <==> y == 1 % n) && (p > 0 ==> (p - 1) % n == p - 1)
  {
    if y == 0 { ModUnique(-1, n, -1, n - 1); }
  }

  /** The distance still to go up to coordinate 0; moving up by one lowers it. */
  lemma GoingUp(x: int, n: int)
    requires 0 <= x < n
    ensures var p := (-x) % n; (p == 0 <==> x == 0) && (p > 0 ==> (-((x + 1) % n)) % n == p - 1)
  {
    UpDistance(x, n);
    if x > 0 {
      if x + 1 == n {
        ModUnique(n, n, 1, 0);
        UpDistance(0, n);
      } else {
        ModUnique(x + 1, n, 0, x + 1);
        UpDistance(x + 1, n);
      }
    }
  }

  lemma UpDistance(x: int, n: int)
    requires 0 <= x < n
    ensures (-x) % n == if x == 0 then 0 else n - x
  {
    if x == 0 { ModUnique(0, n, 0, 0); } else { ModUnique(-x, n, -1, n - x); }
  }

  /** The distance the given direction has still to cover to reach the marked row or column. */
  function Distance(m: BlockMap, v: Vec, d: Dir): int
    requires m.Valid()
  {
    if d == 2 then (v.y - 1) % m.height else if d == 4 then (v.x - 1) % m.width else (-v.x) % m.width
  }

  /** The marked row or column: just below row 0, just right of column 0, or at its left. */
  predicate AtMark(m: BlockMap, v: Vec, d: Dir)
    requires m.Valid()
  {
    if d == 2 then v.y == 1 % m.height else if d == 4 then v.x == 1 % m.width else v.x == 0
  }

  lemma DistanceFalls(m: BlockMap, s: State, d: Dir)
    requires m.Valid() && Boundary(m, s) && d in {0, 2, 4}
    requires if d == 2 then s.d in {0, 2, 4} else s.d == d
    requires !(s.d == d && AtMark(m, s.v, d))
    ensures Distance(m, Step(m, s).v, d) <= Distance(m, s.v, d)
    ensures s.d == d ==> Distance(m, Step(m, s).v, d) < Distance(m, s.v, d)
  {
    hide Step, Solid;
    StraightMove(m, s);
    hide Boundary;
    if d == 2 {
      GoingDown(s.v.y, m.height);
    } else if d == 4 {
      GoingDown(s.v.x, m.width);
    } else {
      GoingUp(s.v.x, m.width);
    }
  }

  /** A loop that goes up (or only left, or only right) passes the marked row (column). */
  lemma PassesMark(m: BlockMap, t: seq<State>, d: Dir) returns (i: nat)
    requires m.Valid() && Cycle(m, t) && d in {0, 2, 4} && t[0].d == d
    requires forall j :: 0 <= j < |t| ==> if d == 2 then t[j].d in {0, 2, 4} else t[j].d == d
    ensures i < |t| && t[i].d == d && AtMark(m, t[i].v, d)
  {
    hide Step, AtMark, Distance, Boundary;
    i := 0;
    while i < |t| && !(t[i].d == d && AtMark(m, t[i].v, d))
      invariant i <= |t|
      invariant forall j :: 0 <= j < i ==> !(t[j].d == d && AtMark(m, t[j].v, d))
    {
      i := i + 1;
    }
    if i == |t| {
      var u := t + [t[0]];
      var a := seq(|u|, j requires 0 <= j < |u| => Distance(m, u[j].v, d));
      forall j | 0 <= j < |t|
        ensures a[j + 1] <= a[j] && (t[j].d == d ==> a[j + 1] < a[j])
      {
        assert u[j + 1] == Step(m, t[j]);
        DistanceFalls(m, t[j], d);
      }
      NoFall(a, |t|);
      assert false;
    }
  }
}
