/** Polygon.contains of the map editor in Python: a point against an outline. */
module PointInPolygon {
  import opened ClosedPaths
  import opened Sequences
  import opened Torus

  /** Twice the signed area of the triangle of the origin, p and q, as the source writes it. */
  function Cross(p: Vec, q: Vec): int { p.y * (p.x - q.x) - p.x * (p.y - q.y) }

  lemma CrossIs(p: Vec, q: Vec)
    ensures Cross(p, q) == p.x * q.y - p.y * q.x
  {
    assert p.y * (p.x - q.x) == p.y * p.x - p.y * q.x && p.x * (p.y - q.y) == p.x * p.y - p.x * q.y;
  }

  /** The segment from p to q crosses the positive x axis; its end on the axis belongs to the upper half plane. */
  predicate CrossesRight(p: Vec, q: Vec) {
    (p.y < 0) != (q.y < 0) && if p.y < 0 then Cross(p, q) > 0 else Cross(p, q) < 0
  }

  /** The segment from p to q passes through the origin. */
  predicate Through(p: Vec, q: Vec) {
    Cross(p, q) == 0 && (p.x <= 0 <= q.x || q.x <= 0 <= p.x) && (p.y <= 0 <= q.y || q.y <= 0 <= p.y)
  }

  function Right(p: Vec, q: Vec): int { if CrossesRight(p, q) then 1 else 0 }

  // ----- Points off the outline

  /** The outline, seen from p as origin. */
  function Seen(points: seq<Vec>, p: Vec): (l: seq<Vec>)
    ensures |l| == |points| && forall i :: 0 <= i < |points| ==> l[i] == Minus(points[i], p)
  {
    seq(|points|, i requires 0 <= i < |points| => Minus(points[i], p))
  }

  /** Some edge passes through the origin. */
  predicate OnOutline(l: seq<Vec>)
    requires l != []
  {
    Through(l[|l| - 1], l[0]) || exists i :: 0 <= i < |l| - 1 && Through(l[i], l[i + 1])
  }

  function Mirrored(l: seq<Vec>): (r: seq<Vec>)
    ensures |r| == |l| && forall i :: 0 <= i < |l| ==> r[i] == Vec(-l[i].x, l[i].y)
  {
    seq(|l|, i requires 0 <= i < |l| => Vec(-l[i].x, l[i].y))
  }

  lemma RightSymmetric(p: Vec, q: Vec)
    ensures Right(p, q) == Right(q, p)
  {
    CrossIs(p, q);
    CrossIs(q, p);
  }

  /** Whether the segment changes sides of the x axis. */
  function Changes(p: Vec, q: Vec): int { if (p.y < 0) != (q.y < 0) then 1 else 0 }

  function Left(p: Vec, q: Vec): int { Right(Vec(-p.x, p.y), Vec(-q.x, q.y)) }

  lemma LeftOrRight(p: Vec, q: Vec)
    requires !Through(p, q)
    ensures Right(p, q) + Left(p, q) == Changes(p, q)
  {
    CrossIs(p, q);
    CrossIs(Vec(-p.x, p.y), Vec(-q.x, q.y));
    assert (-p.x) * q.y == -(p.x * q.y) && p.y * (-q.x) == -(p.y * q.x);
    if Changes(p, q) == 1 && Cross(p, q) == 0 { ZeroThrough(p, q); }
  }

  /** A segment that changes sides on a line through the origin passes through it. */
  lemma ZeroThrough(p: Vec, q: Vec)
    requires (p.y < 0) != (q.y < 0) && Cross(p, q) == 0
    ensures Through(p, q)
  {
    CrossIs(p, q);
    if p.x > 0 && q.x > 0 { SameSide(p, q); }
    if p.x < 0 && q.x < 0 { SameSide(Vec(-p.x, -p.y), Vec(-q.x, -q.y)); }
  }

  lemma SameSide(p: Vec, q: Vec)
    requires p.x > 0 && q.x > 0 && p.x * q.y - p.y * q.x == 0
    ensures (p.y < 0 <==> q.y < 0) && (p.y > 0 <==> q.y > 0)
  {
    assert p.y < 0 ==> p.y * q.x < 0;
    assert q.y < 0 ==> p.x * q.y < 0;
    assert p.y > 0 ==> p.y * q.x > 0;
    assert q.y > 0 ==> p.x * q.y > 0;
    assert p.y == 0 ==> p.y * q.x == 0;
    assert q.y == 0 ==> p.x * q.y == 0;
  }

  lemma {:induction false} PathChanges(l: seq<Vec>)
    requires l != []
    ensures Path(l, Changes) % 2 == Changes(l[0], l[|l| - 1])
  {
    if |l| > 1 { PathChanges(l[1..]); }
  }

  lemma {:induction false} PathMirrored(l: seq<Vec>)
    ensures Path(Mirrored(l), Right) == Path(l, Left)
  {
    if |l| > 1 {
      PathMirrored(l[1..]);
      assert Mirrored(l)[1..] == Mirrored(l[1..]);
    }
  }

  /** Off the outline, the edges that cross the axis on either side of the origin are even in number. */
  lemma BothSidesEven(l: seq<Vec>)
    requires l != [] && !OnOutline(l)
    ensures (Round(l, Right) + Round(Mirrored(l), Right)) % 2 == 0
  {
    forall i | 0 <= i < |l| - 1 ensures AddsUp(Right, Left, Changes, l[i], l[i + 1]) { LeftOrRight(l[i], l[i + 1]); }
    PathAdds(l, Right, Left, Changes);
    LeftOrRight(l[|l| - 1], l[0]);
    PathChanges(l);
    PathMirrored(l);
  }

  // ----- Triangles

  /** The origin lies to the same side of all three edges. */
  predicate Encloses(a: Vec, b: Vec, c: Vec) {
    (Cross(a, b) > 0 && Cross(b, c) > 0 && Cross(c, a) > 0) || (Cross(a, b) < 0 && Cross(b, c) < 0 && Cross(c, a) < 0)
  }

  function Crossings(a: Vec, b: Vec, c: Vec): int { Right(a, b) + Right(b, c) + Right(c, a) }

  lemma CrossBalance(a: Vec, b: Vec, c: Vec)
    ensures a.y * Cross(b, c) + b.y * Cross(c, a) + c.y * Cross(a, b) == 0
  {
    CrossIs(a, b);
    CrossIs(b, c);
    CrossIs(c, a);
    assert a.y * (b.x * c.y - b.y * c.x) == a.y * (b.x * c.y) - a.y * (b.y * c.x);
    assert b.y * (c.x * a.y - c.y * a.x) == b.y * (c.x * a.y) - b.y * (c.y * a.x);
    assert c.y * (a.x * b.y - a.y * b.x) == c.y * (a.x * b.y) - c.y * (a.y * b.x);
    assert a.y * (b.x * c.y) == c.y * (a.y * b.x) && a.y * (b.y * c.x) == b.y * (c.x * a.y);
    assert b.y * (c.y * a.x) == c.y * (a.x * b.y);
  }

  /** Weights of one sign cannot balance numbers of another. */
  lemma Balance(u: int, v: int, w: int, x: int, y: int, z: int)
    requires u * x + v * y + w * z == 0 && x > 0 && y > 0 && z > 0 && (u < 0 <==> v < 0) && (v < 0 <==> w < 0)
    ensures u == v == w == 0
  {
    assert u > 0 ==> u * x > 0;
    assert v > 0 ==> v * y > 0;
    assert w > 0 ==> w * z > 0;
    assert u < 0 ==> u * x < 0 && v * y < 0 && w * z < 0;
    assert u == 0 ==> u * x == 0;
    assert v == 0 ==> v * y == 0;
    assert w == 0 ==> w * z == 0;
  }

  /** All corners on one side of the axis: nothing crosses it, and nothing is enclosed. */
  lemma OneSide(a: Vec, b: Vec, c: Vec)
    requires (a.y < 0 <==> b.y < 0) && (b.y < 0 <==> c.y < 0)
    ensures Crossings(a, b, c) == 0 && !Encloses(a, b, c)
  {
    CrossBalance(a, b, c);
    CrossIs(a, b);
    if Cross(a, b) > 0 && Cross(b, c) > 0 && Cross(c, a) > 0 {
      Balance(a.y, b.y, c.y, Cross(b, c), Cross(c, a), Cross(a, b));
    }
    if Cross(a, b) < 0 && Cross(b, c) < 0 && Cross(c, a) < 0 {
      assert a.y * -Cross(b, c) + b.y * -Cross(c, a) + c.y * -Cross(a, b) == 0;
      Balance(a.y, b.y, c.y, -Cross(b, c), -Cross(c, a), -Cross(a, b));
    }
  }

  /** Corner a alone on its side of the axis. */
  predicate Lone(a: Vec, b: Vec, c: Vec) { (a.y < 0) != (b.y < 0) && (b.y < 0 <==> c.y < 0) }

  lemma Third(a: Vec, b: Vec, c: Vec)
    requires Lone(a, b, c) && !Through(b, c) && Cross(a, b) > 0 && Cross(c, a) > 0
    ensures Cross(b, c) > 0
  {
    CrossBalance(a, b, c);
    CrossIs(a, b);
    CrossIs(b, c);
    CrossIs(c, a);
    ThirdSign(a.y, b.y, c.y, Cross(b, c), Cross(c, a), Cross(a, b));
    assert b.y == 0 ==> Cross(a, b) == -(a.y * b.x);
    assert c.y == 0 ==> Cross(c, a) == c.x * a.y;
  }

  lemma ThirdSign(u: int, v: int, w: int, x: int, y: int, z: int)
    requires u * x + v * y + w * z == 0 && y > 0 && z > 0 && (u < 0) != (v < 0) && (v < 0 <==> w < 0)
    ensures x > 0 || (x == 0 && v == w == 0)
  {
    if u < 0 {
      assert v * y >= 0 && w * z >= 0;
      assert v > 0 ==> v * y > 0;
      assert w > 0 ==> w * z > 0;
      assert x < 0 ==> u * x > 0;
    } else {
      assert v * y < 0 && w * z < 0;
      assert x <= 0 ==> u * x <= 0;
    }
  }

  lemma LoneCorner(a: Vec, b: Vec, c: Vec)
    requires Lone(a, b, c) && !Through(a, b) && !Through(b, c) && !Through(c, a)
    ensures Crossings(a, b, c) % 2 == 1 <==> Encloses(a, b, c)
  {
    CrossIs(a, b);
    CrossIs(b, c);
    CrossIs(c, a);
    CrossIs(a, c);
    CrossIs(b, a);
    CrossIs(c, b);
    if Cross(a, b) == 0 { ZeroThrough(a, b); }
    if Cross(c, a) == 0 { ZeroThrough(c, a); }
    if Cross(a, b) > 0 && Cross(c, a) > 0 { Third(a, b, c); }
    if Cross(a, b) < 0 && Cross(c, a) < 0 { Third(a, c, b); }
  }

  /** Off its outline, the edges of a triangle cross the ray to the right of the origin in odd number exactly when it
      encloses the origin. */
  lemma TriangleInside(l: seq<Vec>)
    requires |l| == 3 && !OnOutline(l)
    ensures Round(l, Right) % 2 == 1 <==> Encloses(l[0], l[1], l[2])
  {
    var a, b, c := l[0], l[1], l[2];
    TriangleEdges(l);
    TrianglePath(l);
    hide Through, Cross, Right;
    if (a.y < 0) == (b.y < 0) == (c.y < 0) {
      OneSide(a, b, c);
    } else if (b.y < 0) == (c.y < 0) {
      LoneCorner(a, b, c);
    } else if (c.y < 0) == (a.y < 0) {
      LoneCorner(b, c, a);
    } else {
      LoneCorner(c, a, b);
    }
  }

  lemma TriangleEdges(l: seq<Vec>)
    requires |l| == 3 && !OnOutline(l)
    ensures !Through(l[0], l[1]) && !Through(l[1], l[2]) && !Through(l[2], l[0])
  {
    hide Through;
  }

  lemma TrianglePath(l: seq<Vec>)
    requires |l| == 3
    ensures Round(l, Right) == Crossings(l[0], l[1], l[2])
  {
    hide Right;
    assert l[1..][1..] == [l[2]];
    assert Path(l[1..], Right) == Right(l[1], l[2]);
  }

  // ----- The test

  /** Whether a segment seen from the point ends the search, and what it adds otherwise. */
  method Edge(p1: Vec, p2: Vec) returns (hit: bool, count: int)
    ensures hit ==> Through(p1, p2)
    ensures !Through(p1, p2) ==> count == Right(p1, p2)
  {
    hit, count := false, 0;
    CrossIs(p1, p2);
    if p1.y < 0 {
      if p2.y >= 0 {
        if p1.x > 0 && p2.x >= 0 {
          BothRight(p1, p2);
          count := 1;
        } else if p1.x >= 0 || p2.x >= 0 {
          var s := p1.y * (p1.x - p2.x) - p1.x * (p1.y - p2.y);
          if s == 0 {
            ZeroThrough(p1, p2);
            hit := true;
          } else if s > 0 {
            count := 1;
          }
        } else {
          BothLeft(p1, p2);
        }
      }
    } else if p2.y <= 0 {
      if p2.y == 0 {
        if p2.x == 0 || (p1.y == 0 && ((p1.x <= 0 && p2.x >= 0) || (p1.x >= 0 && p2.x <= 0))) {
          hit := true;
        }
      } else if p1.x > 0 && p2.x >= 0 {
        BothRight(p1, p2);
        count := 1;
      } else if p1.x >= 0 || p2.x >= 0 {
        var s := p1.y * (p1.x - p2.x) - p1.x * (p1.y - p2.y);
        if s == 0 {
          ZeroThrough(p1, p2);
          hit := true;
        } else if s < 0 {
          count := 1;
        }
      } else {
        BothLeft(p1, p2);
      }
    }
  }

  /** The shortcut for segments at the right of the point agrees with the cross product, but at the point itself. */
  lemma BothRight(p: Vec, q: Vec)
    requires (p.y < 0) != (q.y < 0) && p.x > 0 && q.x >= 0
    ensures Through(p, q) || CrossesRight(p, q)
  {
    CrossIs(p, q);
    assert p.y < 0 ==> p.x * q.y >= 0 && p.y * q.x <= 0;
    assert q.y < 0 ==> p.x * q.y < 0 && p.y * q.x >= 0;
    if Cross(p, q) == 0 { ZeroThrough(p, q); }
  }

  lemma BothLeft(p: Vec, q: Vec)
    requires (p.y < 0) != (q.y < 0) && p.x < 0 && q.x < 0
    ensures !CrossesRight(p, q)
  {
    CrossIs(p, q);
    assert p.y < 0 ==> p.x * q.y <= 0 && p.y * q.x > 0;
    assert q.y < 0 ==> p.x * q.y > 0 && p.y * q.x <= 0;
  }

  /** For a point off the outline, 1 exactly when an odd number of edges crosses the ray to its right. */
  method Contains(points: seq<Vec>, p: Vec) returns (inside: int)
    requires points != []
    ensures inside == 0 || inside == 1
    ensures !OnOutline(Seen(points, p)) ==> inside == Round(Seen(points, p), Right) % 2
  {
    var l := Seen(points, p);
    var p1 := l[|l| - 1];
    inside := 0;
    var count := 0;
    for i := 0 to |l|
      invariant p1 == if i == 0 then l[|l| - 1] else l[i - 1]
      invariant !OnOutline(l) ==> count == if i == 0 then 0 else Right(l[|l| - 1], l[0]) + Path(l[..i], Right)
    {
      var p2 := l[i];
      var hit, more := Edge(p1, p2);
      if hit { return 1; }
      count := count + more;
      if i > 0 {
        PathExtends(l[..i], p2, Right);
        assert l[..i + 1] == l[..i] + [p2];
      }
      p1 := p2;
    }
    assert l[..|l|] == l;
    inside := count % 2;
  }

  // ----- The same outline listed differently

  function Touches(p: Vec, q: Vec): int { if Through(p, q) then 1 else 0 }

  lemma {:induction false} PathTouches(l: seq<Vec>)
    ensures Path(l, Touches) >= 0
    ensures Path(l, Touches) > 0 <==> exists i :: 0 <= i < |l| - 1 && Through(l[i], l[i + 1])
  {
    if |l| > 1 {
      hide Through;
      var m := l[1..];
      PathTouches(m);
      if i :| 0 <= i < |l| - 1 && Through(l[i], l[i + 1]) {
        if i > 0 { assert Through(m[i - 1], m[i]); }
      }
      if i :| 0 <= i < |m| - 1 && Through(m[i], m[i + 1]) { assert Through(l[i + 1], l[i + 2]); }
    }
  }

  /** Being on the outline is a sum over its edges as well. */
  lemma OnOutlineTouches(l: seq<Vec>)
    requires l != []
    ensures OnOutline(l) <==> Round(l, Touches) > 0
  {
    hide Through;
    PathTouches(l);
  }

  lemma TouchesSymmetric(p: Vec, q: Vec)
    ensures Touches(p, q) == Touches(q, p)
  {
    CrossIs(p, q);
    CrossIs(q, p);
  }

  /** Neither the answer nor whether it is promised depends on the corner the list starts with. */
  lemma SameWhenRotated(points: seq<Vec>, p: Vec, k: nat)
    requires points != [] && k <= |points|
    ensures var l, r := Seen(points, p), Seen(points[k..] + points[..k], p);
            Round(r, Right) == Round(l, Right) && (OnOutline(r) <==> OnOutline(l))
  {
    hide OnOutline, Right, Touches;
    var l, r := Seen(points, p), Seen(points[k..] + points[..k], p);
    assert r == l[k..] + l[..k];
    RoundRotated(l, k, Right);
    RoundRotated(l, k, Touches);
    OnOutlineTouches(l);
    OnOutlineTouches(r);
  }

  /** Nor on the sense of the list. */
  lemma SameWhenReversed(points: seq<Vec>, p: Vec)
    requires points != []
    ensures var l, r := Seen(points, p), Seen(Reversed(points), p);
            Round(r, Right) == Round(l, Right) && (OnOutline(r) <==> OnOutline(l))
  {
    hide OnOutline, Right, Touches;
    var l, r := Seen(points, p), Seen(Reversed(points), p);
    assert r == Reversed(l);
    forall u, v ensures Right(u, v) == Right(v, u) && Touches(u, v) == Touches(v, u) {
      RightSymmetric(u, v);
      TouchesSymmetric(u, v);
    }
    RoundReversed(l, Right, false);
    RoundReversed(l, Touches, false);
    OnOutlineTouches(l);
    OnOutlineTouches(r);
  }
}
