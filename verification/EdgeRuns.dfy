/** Writing an outline: runs of parallel edges become one offset, and styles are named only where they change. */
module EdgeRuns {
  import opened Options
  import opened Torus

  datatype Edge = Edge(off: Vec, hidden: bool)

  datatype Style = Internal | Plain

  /** One printed element; without a style it keeps the style of the element before it. */
  datatype Offset = Offset(off: Vec, style: Option<Style>)

  function Total(edges: seq<Edge>): Vec {
    if edges == [] then Vec(0, 0) else Plus(Total(edges[..|edges| - 1]), edges[|edges| - 1].off)
  }

  /** How a reader of the map understands the elements, the polygon's own style being the plain one. */
  function Understood(out: seq<Offset>): seq<Edge> {
    if out == [] then []
    else
      var before, o := Understood(out[..|out| - 1]), out[|out| - 1];
      var hidden := match o.style
        case Some(s) => s == Internal
        case None => before != [] && before[|before| - 1].hidden;
      before + [Edge(o.off, hidden)]
  }

  predicate OneKind(edges: seq<Edge>, a: nat, b: nat, hidden: bool)
    requires b <= |edges|
  {
    forall k :: a <= k < b ==> edges[k].hidden == hidden
  }

  /** Each edge continues along the sum of those before it. */
  predicate OneWay(edges: seq<Edge>, a: nat, b: nat)
    requires b <= |edges|
  {
    forall k :: a < k < b ==> Parallel(Total(edges[a..k]), edges[k].off)
  }

  /** Edges from a to b - 1 as one: their sum, all along one line and of one kind. */
  predicate IsRun(edges: seq<Edge>, a: nat, b: nat, run: Edge) {
    a < b <= |edges| && run.off == Total(edges[a..b]) && OneKind(edges, a, b, run.hidden) && OneWay(edges, a, b)
  }

  /** Run i covers the edges between its cuts and ends where the next edge has another direction or kind. */
  ghost predicate RunAt(edges: seq<Edge>, runs: seq<Edge>, cuts: seq<nat>, i: nat)
    requires i < |runs| && |cuts| == |runs| + 1
  {
    IsRun(edges, cuts[i], cuts[i + 1], runs[i]) &&
    (cuts[i + 1] < |edges| ==>
      !Parallel(runs[i].off, edges[cuts[i + 1]].off) || runs[i].hidden != edges[cuts[i + 1]].hidden)
  }

  /** The runs cover the edges up to n. */
  ghost predicate Covers(edges: seq<Edge>, runs: seq<Edge>, cuts: seq<nat>, n: nat) {
    |cuts| == |runs| + 1 && cuts[0] == 0 && cuts[|runs|] == n &&
    forall i :: 0 <= i < |runs| ==> RunAt(edges, runs, cuts, i)
  }

  function PrintEdge(d: Vec, prevh: bool, curh: bool): Offset {
    Offset(d, if curh && !prevh then Some(Internal) else if prevh && !curh then Some(Plain) else None)
  }

  /** Naming a style only at changes is enough. */
  lemma UnderstoodNext(out: seq<Offset>, d: Vec, prevh: bool, curh: bool)
    requires prevh == (Understood(out) != [] && Understood(out)[|Understood(out)| - 1].hidden)
    ensures Understood(out + [PrintEdge(d, prevh, curh)]) == Understood(out) + [Edge(d, curh)]
  {
    assert (out + [PrintEdge(d, prevh, curh)])[..|out|] == out;
  }

  lemma RunGrows(edges: seq<Edge>, a: nat, b: nat)
    requires a <= b < |edges|
    ensures Total(edges[a..b + 1]) == Plus(Total(edges[a..b]), edges[b].off)
  {
    assert edges[a..b + 1][..b - a] == edges[a..b];
  }

  lemma CoversNext(edges: seq<Edge>, runs: seq<Edge>, cuts: seq<nat>, a: nat, b: nat, run: Edge)
    requires Covers(edges, runs, cuts, a) && IsRun(edges, a, b, run)
    requires b < |edges| ==> !Parallel(run.off, edges[b].off) || run.hidden != edges[b].hidden
    ensures Covers(edges, runs + [run], cuts + [b], b)
  {
    var more, ends := runs + [run], cuts + [b];
    hide IsRun, Parallel;
    forall i | 0 <= i < |more|
      ensures RunAt(edges, more, ends, i)
    {
      if i < |runs| {
        assert RunAt(edges, runs, cuts, i);
        assert more[i] == runs[i] && ends[i] == cuts[i] && ends[i + 1] == cuts[i + 1];
      }
    }
  }

  /** The printed elements are understood as the maximal runs of the outline, with every edge's kind kept. */
  method PrintEdges(edges: seq<Edge>) returns (out: seq<Offset>, ghost cuts: seq<nat>)
    requires edges != []
    ensures Covers(edges, Understood(out), cuts, |edges|)
  {
    hide Parallel, Total, Understood, Covers, OneWay;
    var prevh, curh := false, edges[0].hidden;
    var cur := Vec(0, 0);
    out, cuts := [], [0];
    ghost var a := 0;
    StartEmpty(edges);
    OneWayStart(edges, 0);
    for k := 0 to |edges|
      invariant 0 <= a <= k && (k > 0 ==> a < k) && Covers(edges, Understood(out), cuts, a)
      invariant cur == Total(edges[a..k]) && (k == 0 ==> cur == Vec(0, 0) && curh == edges[0].hidden)
      invariant OneKind(edges, a, k, curh) && OneWay(edges, a, k)
      invariant prevh == (Understood(out) != [] && Understood(out)[|Understood(out)| - 1].hidden)
    {
      var d, h := edges[k].off, edges[k].hidden;
      RunGrows(edges, a, k);
      if !Parallel(d, cur) || curh != h {
        ParallelZero(d, cur);
        UnderstoodNext(out, cur, prevh, curh);
        CoversNext(edges, Understood(out), cuts, a, k, Edge(cur, curh));
        out := out + [PrintEdge(cur, prevh, curh)];
        cuts := cuts + [k];
        RunGrows(edges, k, k);
        EmptyTotal(edges, k);
        OneWayStart(edges, k);
        cur, prevh, curh, a := d, curh, h, k;
      } else {
        ParallelZero(d, cur);
        OneWayNext(edges, a, k);
        cur := Vec(cur.x + d.x, cur.y + d.y);
      }
    }
    UnderstoodNext(out, cur, prevh, curh);
    CoversNext(edges, Understood(out), cuts, a, |edges|, Edge(cur, curh));
    out := out + [PrintEdge(cur, prevh, curh)];
    cuts := cuts + [|edges|];
  }

  lemma OneWayStart(edges: seq<Edge>, k: nat)
    requires k < |edges|
    ensures OneWay(edges, k, k) && OneWay(edges, k, k + 1)
  {}

  lemma OneWayNext(edges: seq<Edge>, a: nat, k: nat)
    requires a <= k < |edges| && OneWay(edges, a, k) && Parallel(Total(edges[a..k]), edges[k].off)
    ensures OneWay(edges, a, k + 1)
  {
    hide Parallel, Total;
  }

  lemma StartEmpty(edges: seq<Edge>)
    ensures Understood([]) == [] && Covers(edges, [], [0], 0) && Total(edges[0..0]) == Vec(0, 0)
  {}

  lemma EmptyTotal(edges: seq<Edge>, k: nat)
    requires k <= |edges|
    ensures Total(edges[k..k]) == Vec(0, 0)
  {}

  lemma ParallelZero(d: Vec, cur: Vec)
    ensures Parallel(d, cur) == Parallel(cur, d)
    ensures cur == Vec(0, 0) ==> Parallel(d, cur)
  {}

  lemma {:induction false} TotalConcat(a: seq<Edge>, b: seq<Edge>)
    ensures Total(a + b) == Plus(Total(a), Total(b))
  {
    if b == [] {
      assert a + b == a;
    } else {
      TotalConcat(a, b[..|b| - 1]);
      assert (a + b)[..|a + b| - 1] == a + b[..|b| - 1];
    }
  }

  /** After any number of runs the pen is where the edges have brought it, so a closed outline stays closed. */
  lemma {:induction false} SameCorners(edges: seq<Edge>, runs: seq<Edge>, cuts: seq<nat>, n: nat, i: nat)
    requires Covers(edges, runs, cuts, n) && i <= |runs|
    ensures cuts[i] <= |edges| && Total(runs[..i]) == Total(edges[..cuts[i]])
  {
    if i > 0 {
      SameCorners(edges, runs, cuts, n, i - 1);
      var run := runs[i - 1];
      assert runs[..i][..i - 1] == runs[..i - 1];
      assert RunAt(edges, runs, cuts, i - 1);
      TotalConcat(edges[..cuts[i - 1]], edges[cuts[i - 1]..cuts[i]]);
      assert edges[..cuts[i]] == edges[..cuts[i - 1]] + edges[cuts[i - 1]..cuts[i]];
    }
  }

  /** The run that covers edge k or starts there. */
  lemma {:induction false} RunOf(edges: seq<Edge>, runs: seq<Edge>, cuts: seq<nat>, n: nat, k: nat, top: nat)
    returns (i: nat)
    requires Covers(edges, runs, cuts, n) && top <= |runs| && k < cuts[top]
    ensures i < |runs| && cuts[i] <= k < cuts[i + 1]
  {
    hide RunAt;
    if top > 0 && cuts[top - 1] <= k { i := top - 1; } else { i := RunOf(edges, runs, cuts, n, k, top - 1); }
  }

  lemma Bent(sum: Vec, before: Vec, e: Vec, f: Vec)
    requires sum == Plus(before, e) && Parallel(before, e) && Parallel(sum, f) && !Parallel(e, f)
    ensures sum == Vec(0, 0)
  {
    assert sum.x * e.y == sum.y * e.x;
    assert sum.x * (e.x * f.y - e.y * f.x) == e.x * (sum.x * f.y) - f.x * (sum.x * e.y);
    assert e.x * (sum.x * f.y) == e.x * (sum.y * f.x);
    assert f.x * (sum.x * e.y) == f.x * (sum.y * e.x);
    assert sum.y * (e.x * f.y - e.y * f.x) == f.y * (sum.y * e.x) - e.y * (sum.y * f.x);
    assert f.y * (sum.y * e.x) == f.y * (sum.x * e.y);
    assert e.y * (sum.y * f.x) == e.y * (sum.x * f.y);
  }

  /** Where the outline changes direction an element ends, unless it is back where it began. */
  lemma {:induction false} BendsEnd(edges: seq<Edge>, runs: seq<Edge>, cuts: seq<nat>, n: nat, k: nat) returns (i: nat)
    requires Covers(edges, runs, cuts, n) && 0 < k < n <= |edges| && !Parallel(edges[k - 1].off, edges[k].off)
    ensures i < |runs| && cuts[i] <= k < cuts[i + 1] <= |edges| && Total(edges[cuts[i]..k]) == Vec(0, 0)
  {
    hide RunAt, Total, Parallel;
    i := RunOf(edges, runs, cuts, n, k, |runs|);
    var a := cuts[i];
    assert RunAt(edges, runs, cuts, i);
    RunBounds(edges, runs, cuts, i);
    EmptyTotal(edges, a);
    if a < k {
      RunGrows(edges, a, k - 1);
      RunParallel(edges, runs, cuts, i, k);
      if a < k - 1 { RunParallel(edges, runs, cuts, i, k - 1); }
      ParallelZero(edges[k - 1].off, Vec(0, 0));
      Bent(Total(edges[a..k]), Total(edges[a..k - 1]), edges[k - 1].off, edges[k].off);
    }
  }

  lemma RunBounds(edges: seq<Edge>, runs: seq<Edge>, cuts: seq<nat>, i: nat)
    requires i < |runs| && |cuts| == |runs| + 1 && RunAt(edges, runs, cuts, i)
    ensures cuts[i] < cuts[i + 1] <= |edges|
  {}

  lemma RunParallel(edges: seq<Edge>, runs: seq<Edge>, cuts: seq<nat>, i: nat, k: nat)
    requires i < |runs| && |cuts| == |runs| + 1 && RunAt(edges, runs, cuts, i) && cuts[i] < k < cuts[i + 1] <= |edges|
    ensures Parallel(Total(edges[cuts[i]..k]), edges[k].off)
  {
    hide Total, Parallel;
  }

  // ----- Preparing the list

  /** The list after its last edge has been moved to the front k times. */
  function Turned(p: seq<Edge>, k: nat): (q: seq<Edge>)
    requires k <= |p|
    ensures |q| == |p|
  {
    p[|p| - k..] + p[..|p| - k]
  }

  /** The edge before edge i on the closed outline. */
  function Before(p: seq<Edge>, i: nat): Edge
    requires i < |p|
  {
    if i == 0 then p[|p| - 1] else p[i - 1]
  }

  /** The outline changes direction at the start of edge i. */
  predicate Bends(p: seq<Edge>, i: nat)
    requires i < |p|
  {
    !Parallel(Before(p, i).off, p[i].off)
  }

  lemma TurnedEnds(p: seq<Edge>, k: nat)
    requires k < |p|
    ensures var q, i := Turned(p, k), if k == 0 then 0 else |p| - k; q[|q| - 1] == Before(p, i) && q[0] == p[i]
  {}

  /** Moves the last edge to the front, k times, while it runs on into the first; some bend has to end this. */
  method StartAtBend(p: seq<Edge>, ghost bend: nat) returns (q: seq<Edge>, k: nat)
    requires bend < |p| && Bends(p, bend)
    ensures k < |p| && q == Turned(p, k) && Bends(q, 0)
  {
    q, k := p, 0;
    ghost var left := if bend == 0 then 0 else |p| - bend;
    while Parallel(q[|q| - 1].off, q[0].off)
      invariant k <= left && q == Turned(p, k)
      decreases left - k
    {
      TurnedEnds(p, k);
      q := [q[|q| - 1]] + q[..|q| - 1];
      k := k + 1;
    }
  }

  /** Without a bend the loop goes on for ever: however often the list is turned, its ends run on. */
  lemma NoBend(p: seq<Edge>, k: nat)
    requires k < |p| && forall i :: 0 <= i < |p| ==> !Bends(p, i)
    ensures Parallel(Turned(p, k)[|p| - 1].off, Turned(p, k)[0].off)
  {
    TurnedEnds(p, k);
    assert !Bends(p, if k == 0 then 0 else |p| - k);
  }

  /** The edges that lead somewhere. */
  function Moving(p: seq<Edge>): seq<Edge> {
    if p == [] then []
    else
      var n := |p| - 1;
      Moving(p[..n]) + if p[n].off == Vec(0, 0) then [] else [p[n]]
  }

  lemma {:induction false} MovingTotal(p: seq<Edge>)
    ensures Total(Moving(p)) == Total(p)
  {
    if p != [] {
      var n := |p| - 1;
      MovingTotal(p[..n]);
      TotalConcat(Moving(p[..n]), if p[n].off == Vec(0, 0) then [] else [p[n]]);
      assert [p[n]][..0] == [];
    }
  }

  lemma {:induction false} SwappedTotal(a: seq<Edge>, b: seq<Edge>)
    ensures Total(Moving(b + a)) == Total(a + b)
  {
    MovingTotal(b + a);
    hide Total, Moving;
    TotalConcat(a, b);
    TotalConcat(b, a);
  }

  /** Turning the list and dropping edges that lead nowhere do not change where the outline leads. */
  lemma {:induction false} PreparedTotal(p: seq<Edge>, k: nat)
    requires k <= |p|
    ensures Total(Moving(Turned(p, k))) == Total(p)
  {
    hide Total, Moving;
    var a, b := p[..|p| - k], p[|p| - k..];
    assert a + b == p;
    SwappedTotal(a, b);
  }

  lemma {:induction false} MovingEnds(p: seq<Edge>)
    requires p != [] && p[0].off != Vec(0, 0) && p[|p| - 1].off != Vec(0, 0)
    ensures var m := Moving(p); m != [] && m[0] == p[0] && m[|m| - 1] == p[|p| - 1]
  {
    MovingFirst(p);
  }

  lemma {:induction false} MovingFirst(p: seq<Edge>)
    requires p != [] && p[0].off != Vec(0, 0)
    ensures Moving(p) != [] && Moving(p)[0] == p[0]
    decreases |p|
  {
    if |p| > 1 { MovingFirst(p[..|p| - 1]); }
  }

  // ----- The polygon

  const BCLICKS := 35 * 64

  /** From blocks with y downwards to pixels with y upwards. */
  function Scaled(v: Vec): Vec { Vec(v.x * BCLICKS, -v.y * BCLICKS) }

  function Clicks(p: seq<Edge>): (q: seq<Edge>)
    ensures |q| == |p| && forall i :: 0 <= i < |p| ==> q[i] == Edge(Scaled(p[i].off), p[i].hidden)
  {
    seq(|p|, i requires 0 <= i < |p| => Edge(Scaled(p[i].off), p[i].hidden))
  }

  lemma {:induction false} ClicksTotal(p: seq<Edge>)
    ensures Total(Clicks(p)) == Scaled(Total(p))
  {
    if p != [] {
      ClicksTotal(p[..|p| - 1]);
      assert Clicks(p)[..|p| - 1] == Clicks(p[..|p| - 1]);
    }
  }

  lemma ScaledParallel(a: Vec, b: Vec)
    ensures Parallel(Scaled(a), Scaled(b)) <==> Parallel(a, b)
  {
    assert Scaled(a).x * Scaled(b).y == -(BCLICKS * BCLICKS) * (a.x * b.y);
    assert Scaled(a).y * Scaled(b).x == -(BCLICKS * BCLICKS) * (a.y * b.x);
  }

  /** The list as it is printed. */
  function Prepared(p: seq<Edge>, k: nat): seq<Edge>
    requires k <= |p|
  {
    Clicks(Moving(Turned(p, k)))
  }

  /** The polygon of an outline: it starts at a bend and leads where the outline leads. */
  method PrintPolygon(p: seq<Edge>, ghost bend: nat) returns (out: seq<Offset>, k: nat, ghost cuts: seq<nat>)
    requires bend < |p| && Bends(p, bend)
    ensures k < |p| && var edges := Prepared(p, k);
            edges != [] && Bends(edges, 0) && Covers(edges, Understood(out), cuts, |edges|)
    ensures Turned(p, k)[0].off != Vec(0, 0)
    ensures Total(Understood(out)) == Scaled(Total(p))
  {
    hide Total, Understood, Covers, Turned, Parallel, Moving, Scaled;
    var q;
    q, k := StartAtBend(p, bend);
    BendMoves(q);
    MovingEnds(q);
    var moving := Moving(q);
    ScaledParallel(moving[|moving| - 1].off, moving[0].off);
    out, cuts := PrintEdges(Clicks(moving));
    PreparedTotal(p, k);
    ClicksTotal(moving);
    AllRuns(Clicks(moving), Understood(out), cuts);
  }

  lemma BendMoves(p: seq<Edge>)
    requires p != [] && Bends(p, 0)
    ensures p[0].off != Vec(0, 0) && p[|p| - 1].off != Vec(0, 0)
  {}

  lemma AllRuns(edges: seq<Edge>, runs: seq<Edge>, cuts: seq<nat>)
    requires Covers(edges, runs, cuts, |edges|)
    ensures Total(runs) == Total(edges)
  {
    hide Total;
    SameCorners(edges, runs, cuts, |edges|, |runs|);
    assert runs[..|runs|] == runs && edges[..|edges|] == edges;
  }
}
