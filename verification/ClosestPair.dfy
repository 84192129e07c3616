/** findmin: the closest pair of corners of two outlines, found with skips. */
module ClosestPair {
  import opened Torus
  import opened Options
  import opened Trace

  function Neg(v: Vec): Vec { Vec(-v.x, -v.y) }

  /** An offset function that always picks a shortest representative of the offset. */
  ghost predicate Nearest(f: Vec -> Vec) {
    && (forall p, q {:trigger f(p), f(q)} :: Norm2(f(p)) <= Norm2(Plus(f(q), Minus(p, q))))
    && forall p {:trigger f(Neg(p))} :: Norm2(f(Neg(p))) == Norm2(f(p))
  }

  lemma NearestAt(f: Vec -> Vec, p: Vec, q: Vec)
    requires Nearest(f)
    ensures Norm2(f(p)) <= Norm2(Plus(f(q), Minus(p, q)))
  {
    hide Norm2;
  }

  /** Neighbouring records of an outline are at most one block apart in each coordinate. */
  ghost predicate SmallSteps(poly: seq<Edge>) {
    forall i :: 0 <= i < |poly| - 1 ==>
      var d := Minus(poly[i + 1].pos, poly[i].pos); -1 <= d.x <= 1 && -1 <= d.y <= 1
  }

  function PairDist(f: Vec -> Vec, p1: seq<Edge>, p2: seq<Edge>, k: int, l: int): int
    requires 0 <= k < |p1| && 0 <= l < |p2|
  {
    Norm2(f(Minus(p2[l].pos, p1[k].pos)))
  }

  /** sqrt(d) - sqrt(m) >= g without taking roots, given x = d - m - g^2 and y = 4 g^2 m. */
  predicate RootGap(x: int, y: int) { x >= 0 && x * x >= y }

  /** d reaches the source's far: sqrt(d) - sqrt(m) >= 4. */
  predicate Far(d: int, m: int) { RootGap(d - m - 16, 64 * m) }

  /** The source's skip condition sqrt(d) - sqrt(m) >= 1.4143 * s, scaled by 10^8. */
  predicate CanSkip(d: int, m: int, s: int) {
    RootGap(100000000 * (d - m) - 200024449 * (s * s), 80009779600000000 * ((s * s) * m))
  }

  lemma CanSkipBounded(d: int, m: int, s: nat)
    requires m >= 0 && CanSkip(d, m, s)
    ensures s <= d || s == 0
  {
    assert s >= 1 ==> s * s >= s;
  }

  /** The skip: the integer part of (sqrt(d) - sqrt(m)) / 1.4143, counted up from s. */
  function Skip(d: int, m: int, s: nat): (r: nat)
    requires m >= 0 && CanSkip(d, m, s)
    ensures s <= r && CanSkip(d, m, r) && !CanSkip(d, m, r + 1)
    decreases d - s
  {
    if CanSkip(d, m, s + 1) then
      CanSkipBounded(d, m, s + 1);
      Skip(d, m, s + 1)
    else s
  }

  lemma FarSkips(d: int, m: int)
    requires m >= 0 && Far(d, m)
    ensures CanSkip(d, m, 0) && CanSkip(d, m, 1)
  {
    var x := d - m - 16;
    SquareScaled(x, 100000000 * (d - m) - 200024449);
    SquareScaled(x, 100000000 * (d - m));
  }

  lemma SquareScaled(x: int, y: int)
    requires 0 <= 100000000 * x <= y
    ensures y * y >= 10000000000000000 * (x * x)
  {
    SquareBound(100000000 * x, y);
    assert (100000000 * x) * (100000000 * x) == 10000000000000000 * (x * x);
  }

  lemma Cauchy(v: Vec, e: Vec)
    ensures (v.x * e.x + v.y * e.y) * (v.x * e.x + v.y * e.y) <= Norm2(v) * Norm2(e)
  {
    var c := v.x * e.y - v.y * e.x;
    assert c * c >= 0;
    assert Norm2(v) * Norm2(e) == (v.x * e.x + v.y * e.y) * (v.x * e.x + v.y * e.y) + c * c;
  }

  lemma SquareBound(a: int, s: int)
    requires -s <= a <= s
    ensures a * a <= s * s
  {
    assert (s - a) * (s + a) == s * s - a * a;
    assert (s - a) * (s + a) >= 0;
  }

  lemma ShortStep(e: Vec, s: int)
    requires -s <= e.x <= s && -s <= e.y <= s
    ensures 0 <= Norm2(e) <= 2 * (s * s)
  {
    SquareBound(e.x, s);
    SquareBound(e.y, s);
  }

  /** Squaring keeps strict order between non-negative numbers. */
  lemma SquareLess(a: int, b: int)
    requires 0 <= a < b
    ensures a * a < b * b
  {
    assert b * b - a * a == (b - a) * (b + a);
    assert (b - a) * (b + a) > 0;
  }

  lemma NormPlus(v: Vec, e: Vec)
    ensures Norm2(Plus(v, e)) == Norm2(v) + 2 * (v.x * e.x + v.y * e.y) + Norm2(e)
    ensures Norm2(v) >= 0
  {}

  /** A point at most s steps from one that is far enough away cannot be closer than sqrt(m). */
  lemma SkipSound(d: int, m: int, s: nat, v: Vec, e: Vec)
    requires m >= 0 && CanSkip(d, m, s)
    requires 0 <= Norm2(e) <= 2 * (s * s)
    requires d <= Norm2(Plus(v, e))
    ensures Norm2(v) >= m
  {
    hide Norm2;
    var n, g, ss := Norm2(v), v.x * e.x + v.y * e.y, s * s;
    var x := 100000000 * (d - m) - 200024449 * ss;
    NormPlus(v, e);
    Cauchy(v, e);
    assert n * Norm2(e) <= n * (2 * ss);
    if n < m {
      SkipClash(n, m, ss, g, x);
    }
  }

  lemma SkipClash(n: int, m: int, ss: int, g: int, x: int)
    requires 0 <= n < m && ss >= 0
    requires x >= 0 && x * x >= 80009779600000000 * (ss * m)
    requires g * g <= n * (2 * ss)
    ensures x >= 200000000 * g
  {
    assert (200000000 * g) * (200000000 * g) == 40000000000000000 * (g * g);
    assert ss * n <= ss * m;
    assert n * (2 * ss) == 2 * (ss * n);
    assert ss * m >= 0;
    if x < 200000000 * g {
      SquareLess(x, 200000000 * g);
    }
  }

  /** The best pair so far: squared distance, corner of each outline, offset between them. */
  datatype Found = Found(dist: int, k: nat, l: nat, off: Vec)

  /** No pair before (k, l) in scanning order is closer than sqrt(m). */
  ghost predicate NoneCloser(f: Vec -> Vec, p1: seq<Edge>, p2: seq<Edge>, k: int, l: int, m: int)
    requires 0 <= k <= |p1|
  {
    forall i, j :: 0 <= i < |p1| && 0 <= j < |p2| && (i < k || (i == k && j < l)) ==> PairDist(f, p1, p2, i, j) >= m
  }

  /** The pair found lies below the bound and comes before all others of its distance. */
  ghost predicate IsFound(f: Vec -> Vec, p1: seq<Edge>, p2: seq<Edge>, m0: int, m: int, res: Option<Found>) {
    match res
    case None => m == m0
    case Some(r) =>
      m < m0 && r.dist == m && r.k < |p1| && r.l < |p2| && m == PairDist(f, p1, p2, r.k, r.l) &&
      r.off == f(Minus(p2[r.l].pos, p1[r.k].pos)) && NoneCloser(f, p1, p2, r.k, r.l, m + 1)
  }

  lemma {:induction false} StepsAdd(poly: seq<Edge>, l: nat, t: int)
    requires SmallSteps(poly) && 0 <= t && l + t < |poly|
    ensures var d := Minus(poly[l].pos, poly[l + t].pos); -t <= d.x <= t && -t <= d.y <= t
  {
    if t > 0 { StepsAdd(poly, l, t - 1); }
  }

  /** The corners passed over by a skip are all at least as far away as the best pair. */
  lemma SkippedFar(f: Vec -> Vec, p1: seq<Edge>, p2: seq<Edge>, k: nat, l: nat, m: int, s: nat, j: nat)
    requires Nearest(f) && SmallSteps(p2) && k < |p1| && l <= j < |p2| && j - l <= s && m >= 0
    requires CanSkip(PairDist(f, p1, p2, k, l), m, s)
    ensures PairDist(f, p1, p2, k, j) >= m
  {
    hide Norm2, CanSkip;
    var p, q := Minus(p2[l].pos, p1[k].pos), Minus(p2[j].pos, p1[k].pos);
    var e := Minus(p, q);
    StepsAdd(p2, l, j - l);
    assert e == Minus(p2[l].pos, p2[j].pos);
    ShortStep(e, s);
    assert Norm2(f(p)) <= Norm2(Plus(f(q), e));
    SkipSound(Norm2(f(p)), m, s, f(q), e);
  }

  /** The double loop of findmin, on lists already put in order. */
  method ScanPairs(p1: seq<Edge>, p2: seq<Edge>, mindist0: int, f: Vec -> Vec) returns (res: Option<Found>)
    requires Nearest(f) && SmallSteps(p2) && mindist0 >= 0
    ensures IsFound(f, p1, p2, mindist0, if res.Some? then res.value.dist else mindist0, res)
    ensures NoneCloser(f, p1, p2, |p1|, 0, if res.Some? then res.value.dist else mindist0)
  {
    hide Norm2, CanSkip, Far, Nearest;
    var mindist := mindist0;
    res := None;
    for k := 0 to |p1|
      invariant mindist >= 0 && IsFound(f, p1, p2, mindist0, mindist, res)
      invariant NoneCloser(f, p1, p2, k, 0, mindist)
    {
      var l := 0;
      while l < |p2|
        invariant mindist >= 0 && IsFound(f, p1, p2, mindist0, mindist, res)
        invariant NoneCloser(f, p1, p2, k, l, mindist)
        decreases |p2| - l
      {
        var off := f(Minus(p2[l].pos, p1[k].pos));
        var d := Norm2(off);
        NormPlus(off, off);
        if d < mindist {
          mindist := d;
          res := Some(Found(mindist, k, l, off));
          l := l + 1;
        } else if !Far(d, mindist) {
          l := l + 1;
        } else {
          FarSkips(d, mindist);
          var s := Skip(d, mindist, 1);
          forall j | l <= j < |p2| && j - l <= s ensures PairDist(f, p1, p2, k, j) >= mindist {
            SkippedFar(f, p1, p2, k, l, mindist, s, j);
          }
          l := l + s;
        }
      }
    }
  }

  /** findmin: the pair it returns is closer than every other pair and than the given bound. */
  method FindMin(part1: seq<Edge>, part2: seq<Edge>, mindist: int, f: Vec -> Vec) returns (res: Option<Found>)
    requires Nearest(f) && SmallSteps(part1) && SmallSteps(part2) && mindist >= 0
    ensures res.None? <==> forall k, l :: 0 <= k < |part1| && 0 <= l < |part2| ==>
            PairDist(f, part1, part2, k, l) >= mindist
    ensures res.Some? ==>
      var r := res.value;
      r.k < |part1| && r.l < |part2| && r.dist == PairDist(f, part1, part2, r.k, r.l) == Norm2(r.off) < mindist &&
      (forall k, l :: 0 <= k < |part1| && 0 <= l < |part2| ==> PairDist(f, part1, part2, k, l) >= r.dist) &&
      var v := Minus(part2[r.l].pos, part1[r.k].pos); r.off == f(v) || r.off == Neg(f(Neg(v)))
  {
    hide Norm2;
    if |part1| > |part2| {
      res := ScanPairs(part2, part1, mindist, f);
      forall k, l | 0 <= k < |part1| && 0 <= l < |part2|
        ensures PairDist(f, part1, part2, k, l) == PairDist(f, part2, part1, l, k)
      {
        PairSymmetric(f, part1, part2, k, l);
      }
      if res.Some? {
        var r := res.value;
        NormNeg(r.off);
        assert Minus(part1[r.l].pos, part2[r.k].pos) == Neg(Minus(part2[r.k].pos, part1[r.l].pos));
        res := Some(Found(r.dist, r.l, r.k, Neg(r.off)));
      }
    } else {
      res := ScanPairs(part1, part2, mindist, f);
    }
  }

  lemma NormNeg(v: Vec)
    ensures Norm2(Neg(v)) == Norm2(v)
  {}

  lemma PairSymmetric(f: Vec -> Vec, p1: seq<Edge>, p2: seq<Edge>, k: int, l: int)
    requires Nearest(f) && 0 <= k < |p1| && 0 <= l < |p2|
    ensures PairDist(f, p1, p2, k, l) == PairDist(f, p2, p1, l, k)
  {
    hide Norm2;
    var v := Minus(p2[l].pos, p1[k].pos);
    assert Minus(p1[k].pos, p2[l].pos) == Neg(v);
  }

  // ---- the offset functions that poly_link passes ----

  /** A part with an outer outline: offsets are taken as they are. */
  function Plain(v: Vec): Vec { v }

  lemma PlainNearest()
    ensures Nearest(Plain)
  {
    forall p: Vec, q: Vec ensures Norm2(Plain(p)) <= Norm2(Plus(Plain(q), Minus(p, q))) {
      assert Plus(q, Minus(p, q)) == p;
    }
    forall p ensures Norm2(Plain(Neg(p))) == Norm2(Plain(p)) { NormNeg(p); }
  }

  /** The representative of a modulo n that is closest to zero. */
  function Centred(a: int, n: int): int
    requires n > 0
  {
    (a + n / 2) % n - n / 2
  }

  lemma CentredCongruent(a: int, n: int)
    requires n > 0
    ensures Centred(a, n) % n == a % n
  {
    ModPlus(a + n / 2, -(n / 2), n);
  }

  /** Of two representatives equally close to zero it is the negative one. */
  lemma CentredBounds(a: int, n: int)
    requires n > 0
    ensures -n <= 2 * Centred(a, n) < n
  {}

  lemma MultipleGap(k: int, n: int)
    requires n > 0
    ensures k == 0 || k * n >= n || k * n <= -n
  {
    assert k >= 1 ==> k * n >= n;
    assert k <= -1 ==> (-k) * n >= n && (-k) * n == -(k * n);
  }

  /** Congruent numbers are equal or at least n apart. */
  lemma CongruentGap(r: int, b: int, n: int)
    requires n > 0 && r % n == b % n
    ensures b == r || b - r >= n || b - r <= -n
  {
    MultipleGap(b / n - r / n, n);
    assert (b / n - r / n) * n == (b / n) * n - (r / n) * n;
  }

  lemma CentredLeast(a: int, b: int, n: int)
    requires n > 0 && a % n == b % n
    ensures Centred(a, n) * Centred(a, n) <= b * b
  {
    hide Centred;
    var r := Centred(a, n);
    CentredCongruent(a, n);
    CentredBounds(a, n);
    CongruentGap(r, b, n);
    if b >= 0 { SquareBound(r, b); } else { SquareBound(r, -b); }
  }

  /** A part without an outer outline: offsets wrap around the map. */
  function BoxWrap(width: int, height: int): Vec -> Vec
    requires width > 0 && height > 0
  {
    (v: Vec) => Vec(Centred(v.x, width), Centred(v.y, height))
  }

  lemma BoxWrapNearest(width: int, height: int)
    requires width > 0 && height > 0
    ensures Nearest(BoxWrap(width, height))
    ensures forall v: Vec :: Congruent(BoxWrap(width, height)(v), v, width, height)
  {
    hide Centred;
    var f := BoxWrap(width, height);
    forall v: Vec ensures Congruent(f(v), v, width, height) {
      CentredCongruent(v.x, width);
      CentredCongruent(v.y, height);
    }
    forall p: Vec, q: Vec {:trigger f(p), f(q)} ensures Norm2(f(p)) <= Norm2(Plus(f(q), Minus(p, q))) {
      var b := Plus(f(q), Minus(p, q));
      CentredCongruent(q.x, width);
      CentredCongruent(q.y, height);
      ModCancel(Centred(q.x, width), q.x, p.x - q.x, width);
      ModCancel(Centred(q.y, height), q.y, p.y - q.y, height);
      CentredLeast(p.x, b.x, width);
      CentredLeast(p.y, b.y, height);
    }
    forall p: Vec ensures Norm2(f(Neg(p))) == Norm2(f(p)) {
      CentredNeg(p.x, width);
      CentredNeg(p.y, height);
    }
  }

  lemma CentredNegLeast(a: int, n: int)
    requires n > 0
    ensures Centred(-a, n) * Centred(-a, n) <= Centred(a, n) * Centred(a, n)
  {
    var c := Centred(a, n);
    CentredCongruent(a, n);
    hide Centred;
    NegCongruent(a, c, n);
    CentredLeast(-a, -c, n);
    assert (-c) * (-c) == c * c;
  }

  lemma CentredNeg(a: int, n: int)
    requires n > 0
    ensures Centred(-a, n) * Centred(-a, n) == Centred(a, n) * Centred(a, n)
  {
    CentredNegLeast(a, n);
    CentredNegLeast(-a, n);
  }

  function Dot(a: Vec, b: Vec): int { a.x * b.x + a.y * b.y }

  function Scaled(w: Vec, k: int): Vec { Vec(k * w.x, k * w.y) }

  /** round(a / b) for b > 0, halves away from zero. */
  function Round(a: int, b: int): int
    requires b > 0
  {
    if a >= 0 then (2 * a + b) / (2 * b) else -((-2 * a + b) / (2 * b))
  }

  /** Two outlines that wrap along w: offsets are reduced along w. */
  function LineWrap(w: Vec): Vec -> Vec
    requires Norm2(w) > 0
  {
    (v: Vec) => Minus(v, Scaled(w, Round(Dot(w, v), Norm2(w))))
  }

  lemma RoundNearest(a: int, b: int)
    requires b > 0
    ensures -b <= 2 * (b * Round(a, b) - a) <= b
  {
    var c := if a >= 0 then 2 * a + b else -2 * a + b;
    var q := c / (2 * b);
    assert c == q * (2 * b) + c % (2 * b);
    assert q * (2 * b) == 2 * (b * q);
    assert b * (-q) == -(b * q);
  }

  /** A half is rounded away from zero. */
  lemma RoundHalf(a: int, b: int, k: nat)
    requires b > 0 && 2 * a == (2 * k + 1) * b
    ensures Round(a, b) == k + 1 && Round(-a, b) == -(k + 1)
  {
    assert (2 * k + 1) * b > 0;
    assert 2 * a + b == (k + 1) * (2 * b) + 0;
    ModUnique(2 * a + b, 2 * b, k + 1, 0);
  }

  /** Among all multiples of w, the rounded one leaves the shortest rest. */
  lemma LineLeast(w: Vec, v: Vec, k: int)
    requires Norm2(w) > 0
    ensures Norm2(LineWrap(w)(v)) <= Norm2(Minus(v, Scaled(w, k)))
  {
    hide Norm2, Dot, Round;
    var n, a := Norm2(w), Dot(w, v);
    var d := Round(a, n);
    RoundNearest(a, n);
    RestNorm(w, v, k);
    RestNorm(w, v, d);
    Excess(n, a, d, k - d);
    JumpCosts(n, k - d, n * d - a);
  }

  lemma Excess(n: int, a: int, d: int, j: int)
    ensures n * ((d + j) * (d + j)) - 2 * a * (d + j) == n * (d * d) - 2 * a * d + j * (n * j + 2 * (n * d - a))
  {
    assert (d + j) * (d + j) == d * d + 2 * (d * j) + j * j;
    assert n * (d * d + 2 * (d * j) + j * j) == n * (d * d) + 2 * (n * (d * j)) + n * (j * j);
    assert n * (d * j) == (n * d) * j;
    assert j * (n * j + 2 * (n * d - a)) == j * (n * j) + 2 * (j * (n * d)) - 2 * (j * a);
    assert j * (n * j) == n * (j * j);
    assert 2 * a * (d + j) == 2 * a * d + 2 * (a * j);
  }

  lemma JumpCosts(n: int, j: int, g: int)
    requires n > 0 && -n <= 2 * g <= n
    ensures j * (n * j + 2 * g) >= 0
  {
    if j >= 1 {
      assert n * j >= n;
    } else if j <= -1 {
      assert n * j <= -n;
    }
  }

  lemma RestNorm(w: Vec, v: Vec, k: int)
    ensures Norm2(Minus(v, Scaled(w, k))) == Norm2(v) - 2 * Dot(w, v) * k + Norm2(w) * (k * k)
  {
    SquareRest(v.x, w.x, k);
    SquareRest(v.y, w.y, k);
    assert Norm2(w) * (k * k) == (w.x * w.x) * (k * k) + (w.y * w.y) * (k * k);
    assert 2 * Dot(w, v) * k == 2 * (w.x * v.x) * k + 2 * (w.y * v.y) * k;
  }

  lemma SquareRest(v: int, w: int, k: int)
    ensures (v - k * w) * (v - k * w) == v * v - 2 * (w * v) * k + (w * w) * (k * k)
  {
    var u := k * w;
    assert (v - u) * (v - u) == v * v - 2 * (u * v) + u * u;
    assert u * v == (w * v) * k;
    assert u * u == (w * w) * (k * k);
  }

  lemma LineWrapNearest(w: Vec, width: int, height: int)
    requires Norm2(w) > 0 && width > 0 && height > 0 && w.x % width == 0 && w.y % height == 0
    ensures Nearest(LineWrap(w))
    ensures forall v: Vec :: Congruent(LineWrap(w)(v), v, width, height)
  {
    hide Norm2, Dot, Round;
    var f := LineWrap(w);
    forall v: Vec ensures Congruent(f(v), v, width, height) {
      var d := Round(Dot(w, v), Norm2(w));
      MultipleGone(v.x, w.x, d, width);
      MultipleGone(v.y, w.y, d, height);
    }
    forall p: Vec, q: Vec {:trigger f(p), f(q)} ensures Norm2(f(p)) <= Norm2(Plus(f(q), Minus(p, q))) {
      var d := Round(Dot(w, q), Norm2(w));
      assert Plus(f(q), Minus(p, q)) == Minus(p, Scaled(w, d));
      LineLeast(w, p, d);
    }
    forall p: Vec ensures Norm2(f(Neg(p))) == Norm2(f(p)) {
      LineNegLeast(w, p);
      LineNegLeast(w, Neg(p));
      assert Neg(Neg(p)) == p;
    }
  }

  lemma LineNegLeast(w: Vec, p: Vec)
    requires Norm2(w) > 0
    ensures Norm2(LineWrap(w)(Neg(p))) <= Norm2(LineWrap(w)(p))
  {
    hide Norm2, Dot, Round;
    var d := Round(Dot(w, p), Norm2(w));
    LineLeast(w, Neg(p), -d);
    assert Minus(Neg(p), Scaled(w, -d)) == Neg(LineWrap(w)(p));
    NormNeg(LineWrap(w)(p));
  }

  lemma MultipleGone(v: int, w: int, d: int, n: int)
    requires n > 0 && w % n == 0
    ensures (v - d * w) % n == v % n
  {
    assert w == (w / n) * n;
    assert v - d * w == v + (-d * (w / n)) * n by { assert d * ((w / n) * n) == (d * (w / n)) * n; }
    ModShift(v, -d * (w / n), n);
  }
}
