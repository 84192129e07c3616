/** tracepoly: follows one border until it returns to its start. */
module Trace {
  import opened Torus
  import opened Blocks
  import opened Options
  import opened Outline

  /** One outline record: unwrapped position of a corner and the offset to the next one. */
  datatype Edge = Edge(pos: Vec, off: Vec)

  /** Scratch marks: Seen is the source's 1, Risen its -1. */
  datatype Mark = Unseen | Seen | Risen

  type Marks = Grid<Mark>

  /** The cell marked as done when an edge is followed. */
  function MarkedCell(s: State): Option<Vec> {
    if s.d == 6 || s.d == 7 then Some(s.v)
    else if s.d == 5 then Some(Plus(s.v, Unit(4)))
    else if s.d == 3 then Some(Plus(s.v, Unit(3)))
    else if s.d == 1 then Some(Plus(s.v, Unit(2)))
    else None
  }

  ghost predicate Marked(m: BlockMap, t: seq<State>, p: Vec)
    requires m.Valid()
  {
    exists i :: 0 <= i < |t| && MarkedCell(t[i]).Some? && m.Home(MarkedCell(t[i]).value) == m.Home(p)
  }

  /** Cell p lies right of an upward edge of t. */
  ghost predicate Rises(m: BlockMap, t: seq<State>, p: Vec)
    requires m.Valid()
  {
    exists i :: 0 <= i < |t| && t[i].d == 2 && m.Home(Plus(t[i].v, Unit(2))) == m.Home(p)
  }

  ghost predicate SameSize<S, T>(a: Grid<S>, b: Grid<T>) {
    a.Valid() && b.Valid() && a.width == b.width && a.height == b.height
  }

  /** How tracing the trail t changes the scratch marks, with and without a direction filter. */
  ghost predicate MarkedBy(m: BlockMap, before: Marks, after: Marks, t: seq<State>)
    requires SameSize(m, before) && SameSize(m, after)
  {
    forall p {:trigger after.At(p)} :: after.At(p) == if Marked(m, t, p) then Seen else before.At(p)
  }

  ghost predicate RisenBy(m: BlockMap, before: Marks, after: Marks, t: seq<State>)
    requires SameSize(m, before) && SameSize(m, after)
  {
    forall p {:trigger after.At(p)} :: after.At(p) == if Rises(m, t, p) then Risen else before.At(p)
  }

  /** The outline's records follow the trail, edge by edge, without gaps. */
  ghost predicate Follows(m: BlockMap, poly: seq<Edge>, t: seq<State>)
    requires m.Valid()
  {
    |poly| == |t| &&
    (forall i :: 0 <= i < |t| ==> m.Home(poly[i].pos) == t[i].v && poly[i].off == Unit(t[i].d)) &&
    forall i :: 0 < i < |t| ==> poly[i].pos == Plus(poly[i - 1].pos, poly[i - 1].off)
  }

  ghost predicate DirsIn(t: seq<State>, ok: set<Dir>) {
    forall i :: 0 <= i < |t| ==> t[i].d in ok
  }

  lemma MarkedGrows(m: BlockMap, before: Marks, after: Marks, t: seq<State>, s: State)
    requires SameSize(m, before) && SameSize(m, after) && MarkedBy(m, before, after, t)
    ensures var c := MarkedCell(s);
            MarkedBy(m, before, if c.Some? then after.Set(c.value, Seen) else after, t + [s])
  {
    var c := MarkedCell(s);
    forall p
      ensures Marked(m, t + [s], p) <==> Marked(m, t, p) || (c.Some? && m.Home(c.value) == m.Home(p))
    {
      if Marked(m, t, p) {
        var i :| 0 <= i < |t| && MarkedCell(t[i]).Some? && m.Home(MarkedCell(t[i]).value) == m.Home(p);
        assert (t + [s])[i] == t[i];
      }
      assert (t + [s])[|t|] == s;
    }
  }

  lemma RisenGrows(m: BlockMap, before: Marks, after: Marks, t: seq<State>, s: State)
    requires SameSize(m, before) && SameSize(m, after) && RisenBy(m, before, after, t)
    ensures RisenBy(m, before, if s.d == 2 then after.Set(Plus(s.v, Unit(2)), Risen) else after, t + [s])
  {
    var c := Plus(s.v, Unit(2));
    forall p
      ensures Rises(m, t + [s], p) <==> Rises(m, t, p) || (s.d == 2 && m.Home(c) == m.Home(p))
    {
      if Rises(m, t, p) {
        var i :| 0 <= i < |t| && t[i].d == 2 && m.Home(Plus(t[i].v, Unit(2))) == m.Home(p);
        assert (t + [s])[i] == t[i];
      }
      assert (t + [s])[|t|] == s;
    }
  }

  lemma FollowsGrows(m: BlockMap, poly: seq<Edge>, t: seq<State>, pos: Vec, s: State)
    requires m.Valid() && Follows(m, poly, t) && m.Home(pos) == s.v
    requires |t| > 0 ==> pos == Plus(poly[|t| - 1].pos, poly[|t| - 1].off)
    ensures Follows(m, poly + [Edge(pos, Unit(s.d))], t + [s])
  {}

  /** Turns right from the leftmost direction until the way is open. */
  method TurnLeftmost(r: Ring, arrival: Dir) returns (dir: Dir)
    requires !r[Turned(arrival, 5)]
    ensures dir == NextDir(r, arrival)
  {
    dir := Turned(arrival, 3);
    ghost var k: int := 0;
    NextFromStart(r, arrival);
    TurnedWhole(arrival);
    while r[dir]
      invariant 0 <= k <= 6 && dir == Turned(arrival, 3 - k)
      invariant NextDir(r, arrival) == NextFrom(r, arrival, k)
      decreases 6 - k
    {
      dir := Turned(dir, -1);
      k := k + 1;
    }
  }

  lemma StepSides(m: BlockMap, s: State)
    requires m.Valid() && Boundary(m, s)
    ensures !Solid(m, Head(m, s), Turned(s.d, 5))
  {
    EdgeSides(m, s.v, s.d);
    SolidHome(m, Plus(s.v, Unit(s.d)), Turned(s.d, 5));
  }

  /** The marks after following the edge s without a direction filter. */
  function MarkEdge(done: Marks, s: State): Marks
    requires done.Valid()
  {
    var c := MarkedCell(s);
    if c.Some? then done.Set(c.value, Seen) else done
  }

  /** The marks after turning into the edge s under a direction filter. */
  function MarkRise(done: Marks, s: State): Marks
    requires done.Valid()
  {
    if s.d == 2 then done.Set(Plus(s.v, Unit(2)), Risen) else done
  }

  /** Loop state of the trace: prev has been recorded, the last state of t is next. */
  ghost predicate Tracing(m: BlockMap, start: Vec, startdir: Dir, res: seq<Edge>, prev: seq<State>, pos: Vec,
                          t: seq<State>)
    requires m.Valid()
  {
    && Trail(m, t) && t[..|t| - 1] == prev && t[0] == State(m.Home(start), startdir)
    && Follows(m, res, prev) && m.Home(pos) == t[|t| - 1].v
    && (prev == [] ==> pos == start)
    && (prev != [] ==> res[0].pos == start && pos == Plus(res[|prev| - 1].pos, res[|prev| - 1].off))
  }

  ghost predicate Filtered(m: BlockMap, okdir: Option<set<Dir>>, done0: Marks, done: Marks, prev: seq<State>,
                           t: seq<State>)
    requires SameSize(m, done0) && SameSize(m, done) && |t| > 0
  {
    match okdir
    case None => MarkedBy(m, done0, done, prev)
    case Some(ok) => ok <= {0, 2, 4} && DirsIn(t, ok) && RisenBy(m, done0, done, t[1..])
  }

  lemma TracingStart(m: BlockMap, start: Vec, startdir: Dir, okdir: Option<set<Dir>>, done0: Marks)
    requires SameSize(m, done0) && Borders(m, start, startdir)
    requires okdir.Some? ==> startdir in okdir.value && okdir.value <= {0, 2, 4}
    ensures var t := [State(m.Home(start), startdir)];
            Tracing(m, start, startdir, [], [], start, t) && Filtered(m, okdir, done0, done0, [], t)
  {
    hide Borders;
    BordersHome(m, start, startdir);
    assert [State(m.Home(start), startdir)][..0] == [];
  }

  lemma TracingStep(m: BlockMap, start: Vec, startdir: Dir, res: seq<Edge>, prev: seq<State>, pos: Vec, t: seq<State>)
    requires m.Valid() && Tracing(m, start, startdir, res, prev, pos, t)
    ensures var s := t[|t| - 1];
            var res' := res + [Edge(pos, Unit(s.d))];
            var pos' := Plus(pos, Unit(s.d));
            Follows(m, res', t) && res'[0].pos == start && m.Home(pos') == Head(m, s) &&
            (Step(m, s) != t[0] ==> Tracing(m, start, startdir, res', t, pos', t + [Step(m, s)]))
  {
    var s := t[|t| - 1];
    assert t == prev + [s];
    FollowsGrows(m, res, prev, pos, s);
    WrapPlus(pos, Unit(s.d), m.width, m.height);
    if Step(m, s) != t[0] {
      TrailGrows(m, t);
      assert (t + [Step(m, s)])[..|t|] == t;
    }
  }

  lemma FilteredStep(m: BlockMap, okdir: Option<set<Dir>>, done0: Marks, done: Marks, prev: seq<State>, t: seq<State>,
                     next: State)
    requires SameSize(m, done0) && SameSize(m, done) && |t| > 0 && t[..|t| - 1] == prev
    requires Filtered(m, okdir, done0, done, prev, t)
    ensures okdir.None? ==> MarkedBy(m, done0, MarkEdge(done, t[|t| - 1]), t)
    ensures okdir.Some? ==> MarkEdge(done, t[|t| - 1]) == done
    ensures okdir.Some? && next.d in okdir.value ==> Filtered(m, okdir, done0, MarkRise(done, next), t, t + [next])
  {
    var s := t[|t| - 1];
    assert t == prev + [s];
    if okdir.None? {
      MarkedGrows(m, done0, done, prev, s);
    } else {
      assert s.d in okdir.value;
      RisenGrows(m, done0, done, t[1..], next);
      assert (t + [next])[1..] == t[1..] + [next];
    }
  }

  method TracePoly(m: BlockMap, start: Vec, startdir: Dir, okdir: Option<set<Dir>>, done0: Marks)
    returns (poly: Option<seq<Edge>>, done: Marks, ghost t: seq<State>)
    requires SameSize(m, done0) && Borders(m, start, startdir)
    requires okdir.Some? ==> startdir in okdir.value && okdir.value <= {0, 2, 4}
    ensures SameSize(m, done)
    ensures t != [] && Trail(m, t) && t[0] == State(m.Home(start), startdir)
    ensures okdir.None? ==> poly.Some?
    ensures poly.Some? ==> Cycle(m, t) && Follows(m, poly.value, t) && poly.value != [] && poly.value[0].pos == start
    ensures poly.None? ==> Step(m, t[|t| - 1]).d !in okdir.value
    ensures okdir.Some? ==> DirsIn(t, okdir.value)
    ensures okdir.None? ==> MarkedBy(m, done0, done, t)
    ensures okdir.Some? ==> RisenBy(m, done0, done, t[1..])
  {
    hide Solid, NextDir, MarkedBy, RisenBy, Follows, DirsIn;
    var dir, l, pos := startdir, m.Home(start), start;
    var startloc := l;
    var res: seq<Edge> := [];
    done := done0;
    TracingStart(m, start, startdir, okdir, done0);
    ghost var prev: seq<State> := [];
    t := [State(l, dir)];
    while true
      invariant SameSize(m, done) && |t| > 0 && startloc == t[0].v && t[0].d == startdir && State(l, dir) == t[|t| - 1]
      invariant Tracing(m, start, startdir, res, prev, pos, t)
      invariant Filtered(m, okdir, done0, done, prev, t)
      decreases AllStates(m) - Members(t)
    {
      ghost var next := Step(m, t[|t| - 1]);
      TracingStep(m, start, startdir, res, prev, pos, t);
      FilteredStep(m, okdir, done0, done, prev, t, next);
      StepSides(m, t[|t| - 1]);
      res := res + [Edge(pos, Unit(dir))];
      pos := Plus(pos, Unit(dir));
      done := MarkEdge(done, State(l, dir));
      l := m.Home(Plus(l, Unit(dir)));
      dir := TurnLeftmost(Sectors(m, l), dir);
      if l == startloc && dir == startdir {
        break;
      }
      if okdir.Some? && dir !in okdir.value {
        return None, done, t;
      }
      if okdir.Some? {
        done := MarkRise(done, State(l, dir));
      }
      TrailGrows(m, t);
      TrailBounded(m, t, next);
      prev := t;
      t := t + [next];
    }
    poly := Some(res);
  }
}
