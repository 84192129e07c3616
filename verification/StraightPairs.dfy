/** Two straight outlines that run opposite ways do not share a corner, so a link between them leads off their line. */
module StraightPairs {
  import opened Torus
  import opened Blocks
  import opened Outline
  import opened Trace
  import opened EdgeCover
  import opened Tour
  import opened Bends
  import opened Straight

  function Times(q: int, u: Vec): Vec { Vec(q * u.x, q * u.y) }

  lemma TimesNext(q: int, u: Vec)
    ensures Times(q + 1, u) == Plus(Times(q, u), u) && Times(q - 1, u) == Minus(Times(q, u), u)
  {
    assert (q + 1) * u.x == q * u.x + u.x && (q + 1) * u.y == q * u.y + u.y;
    assert (q - 1) * u.x == q * u.x - u.x && (q - 1) * u.y == q * u.y - u.y;
  }

  /** The corner q steps from v in direction d. */
  function OnLine(m: BlockMap, v: Vec, d: Dir, q: int): Vec
    requires m.Valid()
  {
    m.Home(Plus(v, Times(q, Unit(d))))
  }

  ghost predicate AllGo(t: seq<State>, d: Dir) { forall s :: s in t ==> s.d == d }

  lemma LineNext(m: BlockMap, v: Vec, d: Dir, q: int)
    requires m.Valid()
    ensures OnLine(m, v, d, q + 1) == m.Home(Plus(OnLine(m, v, d, q), Unit(d)))
    ensures OnLine(m, v, d, q - 1) == m.Home(Minus(OnLine(m, v, d, q), Unit(d)))
  {
    hide Unit, Times, Wrap;
    var u, p := Unit(d), Plus(v, Times(q, Unit(d)));
    TimesNext(q, u);
    HomeStep(m, p, u);
    HomeStep(m, p, Vec(-u.x, -u.y));
    assert Plus(v, Times(q + 1, u)) == Plus(p, u) && Plus(v, Times(q - 1, u)) == Plus(p, Vec(-u.x, -u.y));
  }

  lemma HomeStep(m: BlockMap, p: Vec, u: Vec)
    requires m.Valid()
    ensures m.Home(Plus(m.Home(p), u)) == m.Home(Plus(p, u))
    ensures Plus(m.Home(p), u) == Minus(m.Home(p), Vec(-u.x, -u.y))
  {
    WrapPlus(p, u, m.width, m.height);
  }

  /** A straight loop passes every corner on its line. */
  lemma {:induction false} PassesLine(m: BlockMap, t: seq<State>, s: State, q: int)
    requires m.Valid() && Cycle(m, t) && AllGo(t, s.d) && s in t && m.InRange(s.v)
    ensures State(OnLine(m, s.v, s.d, q), s.d) in t
    decreases if q < 0 then -q else q
  {
    hide Cycle, Sectors, NextDir, PrevDir;
    if q > 0 {
      PassesLine(m, t, s, q - 1);
      var r := State(OnLine(m, s.v, s.d, q - 1), s.d);
      CycleClosed(m, t, r);
      LineNext(m, s.v, s.d, q - 1);
      assert Step(m, r).d == s.d;
    } else if q < 0 {
      PassesLine(m, t, s, q + 1);
      var r := State(OnLine(m, s.v, s.d, q + 1), s.d);
      CycleClosed(m, t, r);
      LineNext(m, s.v, s.d, q + 1);
      assert Back(m, r).d == s.d;
    }
  }

  lemma InLoop(m: BlockMap, t: seq<State>, s: State)
    requires m.Valid() && Cycle(m, t) && s in t
    ensures Boundary(m, s)
  {
    hide Boundary, Step;
  }

  /** Behind a straight loop's edge the border goes on: the sector there is open. */
  lemma OpenBehind(m: BlockMap, t: seq<State>, s: State)
    requires m.Valid() && Cycle(m, t) && AllGo(t, s.d) && s in t
    ensures !Solid(m, s.v, Turned(s.d, 5))
  {
    CycleClosed(m, t, s);
    InLoop(m, t, s);
    var r := Back(m, s);
    InLoop(m, t, r);
    assert r.d == s.d;
    StepBack(m, s);
    hide Cycle, Solid, Sectors, NextDir, PrevDir, Back, Unit, Turned;
    StepSides(m, r);
  }

  /** So no other loop runs the opposite way through one of its corners. */
  lemma NoCounterLoop(m: BlockMap, t: seq<State>, t': seq<State>, s: State)
    requires m.Valid() && Cycle(m, t) && Cycle(m, t') && AllGo(t, s.d) && s in t
    ensures State(s.v, Turned(s.d, 4)) !in t'
  {
    OpenBehind(m, t, s);
    var r := State(s.v, Turned(s.d, 4));
    if r in t' {
      InLoop(m, t', r);
      TurnedTwice(s.d, 4, 1);
      assert false;
    }
  }

  /** Two straight outlines that cancel run opposite ways. */
  lemma OppositeWays(d: Dir, e: Dir, a: nat, b: nat)
    requires a > 0 && b > 0 && a * Unit(d).x + b * Unit(e).x == 0 && a * Unit(d).y + b * Unit(e).y == 0
    ensures e == Turned(d, 4)
  {
    Opposed(a, b, Unit(d).x, Unit(e).x);
    Opposed(a, b, Unit(d).y, Unit(e).y);
    OppositeIs(d, e);
  }

  lemma Opposed(a: nat, b: nat, x: int, y: int)
    requires a > 0 && b > 0 && a * x + b * y == 0
    ensures Against(x, y)
  {
    if x > 0 { assert a * x > 0; assert y >= 0 ==> b * y >= 0; }
    if x < 0 { assert a * x < 0; assert y <= 0 ==> b * y <= 0; }
    if x == 0 { assert y > 0 ==> b * y > 0; assert y < 0 ==> b * y < 0; }
  }

  predicate Against(x: int, y: int) { (x > 0 ==> y < 0) && (x < 0 ==> y > 0) && (x == 0 ==> y == 0) }

  lemma OppositeIs(d: Dir, e: Dir)
    requires Against(Unit(d).x, Unit(e).x) && Against(Unit(d).y, Unit(e).y)
    ensures e == Turned(d, 4)
  {}

  /** A vector parallel to a direction is a multiple of its unit step. */
  lemma ParallelMultiple(off: Vec, d: Dir) returns (q: int)
    requires Parallel(off, Unit(d))
    ensures off == Times(q, Unit(d))
  {
    q := if Unit(d).x != 0 then off.x * Unit(d).x else off.y * Unit(d).y;
  }

  lemma StraightGoes(m: BlockMap, poly: seq<Edge>, t: seq<State>, d: Dir)
    requires m.Valid() && Follows(m, poly, t) && IsStraight(poly, d)
    ensures AllGo(t, d)
  {
    forall s | s in t ensures s.d == d {
      var i :| 0 <= i < |t| && t[i] == s;
      assert poly[i].off == Unit(s.d) == Unit(d);
      UnitOnce(s.d, d);
    }
  }

  lemma UnitOnce(d: Dir, e: Dir)
    requires Unit(d) == Unit(e)
    ensures d == e
  {}

  lemma LandsOnLine(m: BlockMap, from: Vec, to: Vec, d: Dir, q: int)
    requires m.Valid() && Congruent(Plus(from, Times(q, Unit(d))), to, m.width, m.height)
    ensures m.Home(to) == OnLine(m, m.Home(from), d, q)
  {
    hide Unit, Times;
    HomeStep(m, from, Times(q, Unit(d)));
  }

  /** The link between two straight outlines of a part is not parallel to them. */
  lemma {:induction false} LinkLeaves(m: BlockMap, p: seq<Edge>, t: seq<State>, d: Dir,
                                      p': seq<Edge>, t': seq<State>, e: Dir, i: nat, j: nat, off: Vec)
    requires m.Valid() && Cycle(m, t) && Follows(m, p, t) && IsStraight(p, d)
    requires Cycle(m, t') && Follows(m, p', t') && IsStraight(p', e)
    requires Plus(Prefix(p, |p|), Prefix(p', |p'|)) == Vec(0, 0)
    requires i < |p| && j < |p'| && Congruent(Plus(p[i].pos, off), p'[j].pos, m.width, m.height)
    ensures !Parallel(off, Unit(d))
  {
    hide Cycle, Follows, IsStraight, Parallel, Unit, Turned, Prefix, Congruent, Times, OnLine;
    StraightPair(p, d, p', e);
    StraightGoes(m, p, t, d);
    StraightGoes(m, p', t', e);
    PlaceOf(m, p, t, i, d);
    PlaceOf(m, p', t', j, e);
    if Parallel(off, Unit(d)) {
      var q := ParallelMultiple(off, d);
      LandsOnLine(m, p[i].pos, p'[j].pos, d, q);
      PassesLine(m, t, t[i], q);
      NoCounterLoop(m, t, t', State(OnLine(m, t[i].v, d, q), d));
    }
  }

  lemma {:induction false} StraightPair(p: seq<Edge>, d: Dir, p': seq<Edge>, e: Dir)
    requires IsStraight(p, d) && IsStraight(p', e) && p != [] && p' != []
    requires Plus(Prefix(p, |p|), Prefix(p', |p'|)) == Vec(0, 0)
    ensures e == Turned(d, 4)
  {
    hide Unit, Turned;
    StraightPrefix(p, d, |p|);
    StraightPrefix(p', e, |p'|);
    OppositeWays(d, e, |p|, |p'|);
  }

  lemma {:induction false} PlaceOf(m: BlockMap, p: seq<Edge>, t: seq<State>, i: nat, d: Dir)
    requires m.Valid() && Cycle(m, t) && Follows(m, p, t) && i < |p| && AllGo(t, d)
    ensures |p| == |t| && t[i] == State(m.Home(p[i].pos), d) && m.InRange(t[i].v) && t[i] in t
  {
    hide Step, Borders;
    assert Boundary(m, t[i]);
  }
}
