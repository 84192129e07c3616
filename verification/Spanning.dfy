/** Sets of weighted links that connect points to a growing core, and the exchange step of Prim's algorithm. */
module Spanning {
  import opened Sequences

  type Link = (int, int)

  ghost predicate Linked(links: set<Link>, a: int, b: int) {
    (a, b) in links || (b, a) in links
  }

  ghost predicate Within(links: set<Link>, n: int) {
    forall e :: e in links ==> 0 <= e.0 < n && 0 <= e.1 < n
  }

  ghost predicate Walk(links: set<Link>, p: seq<int>) {
    |p| > 0 && forall i :: 0 <= i < |p| - 1 ==> Linked(links, p[i], p[i + 1])
  }

  ghost predicate WalkTo(links: set<Link>, core: set<int>, p: seq<int>, v: int) {
    Walk(links, p) && p[0] == v && p[|p| - 1] in core
  }

  ghost predicate Joins(links: set<Link>, core: set<int>, v: int) {
    exists p :: WalkTo(links, core, p, v)
  }

  /** Every point below n is joined to the core by a walk over the links. */
  ghost predicate Connects(links: set<Link>, core: set<int>, n: int) {
    forall v :: 0 <= v < n ==> Joins(links, core, v)
  }

  ghost function Total(links: set<Link>, w: (int, int) -> int): int {
    if links == {} then 0
    else
      var e :| e in links;
      w(e.0, e.1) + Total(links - {e}, w)
  }

  lemma {:induction false} TotalWithout(links: set<Link>, w: (int, int) -> int, e: Link)
    requires e in links
    ensures Total(links, w) == w(e.0, e.1) + Total(links - {e}, w)
    decreases |links|
  {
    var c :| c in links && Total(links, w) == w(c.0, c.1) + Total(links - {c}, w);
    if c != e {
      TotalWithout(links - {c}, w, e);
      TotalWithout(links - {e}, w, c);
      assert links - {c} - {e} == links - {e} - {c};
    }
  }

  lemma {:induction false} TotalNonNegative(links: set<Link>, w: (int, int) -> int)
    requires forall e :: e in links ==> w(e.0, e.1) >= 0
    ensures Total(links, w) >= 0
    decreases |links|
  {
    if links != {} {
      var c :| c in links && Total(links, w) == w(c.0, c.1) + Total(links - {c}, w);
      TotalNonNegative(links - {c}, w);
    }
  }

  /** A walk that meets the core only at its end. */
  ghost predicate Route(links: set<Link>, core: set<int>, p: seq<int>, v: int) {
    WalkTo(links, core, p, v) && forall i :: 0 <= i < |p| - 1 ==> p[i] !in core
  }

  lemma {:induction false} FirstHit(links: set<Link>, core: set<int>, p: seq<int>, v: int) returns (r: seq<int>)
    requires WalkTo(links, core, p, v)
    ensures Route(links, core, r, v)
    decreases |p|
  {
    if i :| 0 <= i < |p| - 1 && p[i] in core {
      r := FirstHit(links, core, p[..i + 1], v);
    } else {
      r := p;
    }
  }

  /** Off the core, a route does not need a link that ends in the core. */
  lemma RouteSpares(links: set<Link>, core: set<int>, p: seq<int>, v: int, e: Link)
    requires Route(links, core, p, v) && |p| >= 2 && (e.0 in core || e.1 in core)
    ensures Walk(links - {e}, p[..|p| - 1])
  {
    var q := p[..|p| - 1];
    forall i | 0 <= i < |q| - 1
      ensures Linked(links - {e}, q[i], q[i + 1])
    {
      assert Linked(links, p[i], p[i + 1]);
    }
  }

  lemma WalkBack(links: set<Link>, p: seq<int>)
    requires Walk(links, p)
    ensures Walk(links, Reversed(p))
  {
    var r := Reversed(p);
    forall i | 0 <= i < |r| - 1
      ensures Linked(links, r[i], r[i + 1])
    {
      assert Linked(links, p[|p| - 2 - i], p[|p| - 1 - i]);
    }
  }

  lemma WalkJoin(links: set<Link>, p: seq<int>, q: seq<int>)
    requires Walk(links, p) && Walk(links, q) && p[|p| - 1] == q[0]
    ensures Walk(links, p + q[1..])
  {
    var r := p + q[1..];
    forall i | 0 <= i < |r| - 1
      ensures Linked(links, r[i], r[i + 1])
    {
      if i >= |p| - 1 {
        assert r[i] == q[i + 1 - |p|] && r[i + 1] == q[i + 2 - |p|];
      }
    }
  }

  /** After dropping the last link e of v's route, u still reaches the core or v. */
  lemma Rerouted(links: set<Link>, core: set<int>, pv: seq<int>, v: int, pu: seq<int>, u: int,
                 e: Link) returns (p: seq<int>)
    requires Route(links, core, pv, v) && Route(links, core, pu, u) && |pv| >= 2
    requires e == (pv[|pv| - 2], pv[|pv| - 1]) || e == (pv[|pv| - 1], pv[|pv| - 2])
    ensures WalkTo(links - {e}, core + {v}, p, u)
  {
    if |pu| == 1 {
      p := pu;
      return;
    }
    RouteSpares(links, core, pu, u, e);
    RouteSpares(links, core, pv, v, e);
    var n := |pu|;
    var x, a := pu[n - 2], pu[n - 1];
    assert Linked(links, x, a);
    if Linked(links - {e}, x, a) {
      p := pu;
      forall i | 0 <= i < n - 1 ensures Linked(links - {e}, p[i], p[i + 1]) {
        if i < n - 2 { assert pu[..n - 1][i] == p[i] && pu[..n - 1][i + 1] == p[i + 1]; }
      }
    } else {
      var back := Reversed(pv[..|pv| - 1]);
      WalkBack(links - {e}, pv[..|pv| - 1]);
      assert x == pv[|pv| - 2];
      WalkJoin(links - {e}, pu[..n - 1], back);
      p := pu[..n - 1] + back[1..];
    }
  }

  /** Growing the core by v saves at least the cheapest link that crosses its border. */
  lemma Exchange(links: set<Link>, core: set<int>, n: int, v: int, m: int,
                 w: (int, int) -> int) returns (fewer: set<Link>)
    requires Connects(links, core, n) && Within(links, n) && 0 <= v < n && v !in core
    requires forall a, b :: a in core && 0 <= b < n && b !in core ==> w(a, b) >= m && w(b, a) >= m
    ensures fewer <= links && Connects(fewer, core + {v}, n) && Total(fewer, w) + m <= Total(links, w)
  {
    assert Joins(links, core, v);
    var q :| WalkTo(links, core, q, v);
    var pv := FirstHit(links, core, q, v);
    var x, a := pv[|pv| - 2], pv[|pv| - 1];
    assert Linked(links, x, a);
    var e := if (x, a) in links then (x, a) else (a, x);
    fewer := links - {e};
    TotalWithout(links, w, e);
    forall u | 0 <= u < n
      ensures Joins(fewer, core + {v}, u)
    {
      assert Joins(links, core, u);
      var s :| WalkTo(links, core, s, u);
      var pu := FirstHit(links, core, s, u);
      var p := Rerouted(links, core, pv, v, pu, u, e);
    }
  }
}
