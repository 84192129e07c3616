/** Vectors, the eight compass directions and grids that wrap at their edges. */
module Torus {

  datatype Vec = Vec(x: int, y: int)

  function Plus(a: Vec, b: Vec): Vec { Vec(a.x + b.x, a.y + b.y) }

  function Minus(a: Vec, b: Vec): Vec { Vec(a.x - b.x, a.y - b.y) }

  predicate Parallel(a: Vec, b: Vec) { a.x * b.y == a.y * b.x }

  function Norm2(a: Vec): int { a.x * a.x + a.y * a.y }

  function Abs(x: int): nat { if x < 0 then -x else x }

  type Dir = d: int | 0 <= d < 8

  /** Counter-clockwise from "right"; y grows downwards. */
  function Unit(d: Dir): Vec {
    match d
    case 0 => Vec(1, 0)
    case 1 => Vec(1, -1)
    case 2 => Vec(0, -1)
    case 3 => Vec(-1, -1)
    case 4 => Vec(-1, 0)
    case 5 => Vec(-1, 1)
    case 6 => Vec(0, 1)
    case _ => Vec(1, 1)
  }

  /** The direction k eighths of a turn to the left of d. */
  function Turned(d: Dir, k: int): Dir
    requires -8 <= k <= 8
  {
    var e := d + k;
    if e < 0 then e + 8 else if e < 8 then e else e - 8
  }

  lemma TurnedTwice(d: Dir, a: int, b: int)
    requires -8 <= a <= 8 && -8 <= b <= 8 && -8 <= a + b <= 8
    ensures Turned(Turned(d, a), b) == Turned(d, a + b)
  {}

  lemma TurnedWhole(d: Dir)
    ensures Turned(d, 0) == Turned(d, 8) == d && Turned(d, -3) == Turned(d, 5)
  {}

  function Wrap(p: Vec, width: int, height: int): Vec
    requires width > 0 && height > 0
  {
    Vec(p.x % width, p.y % height)
  }

  /** The same point of the torus. */
  predicate Congruent(p: Vec, q: Vec, width: int, height: int)
    requires width > 0 && height > 0
  {
    Wrap(p, width, height) == Wrap(q, width, height)
  }

  lemma ModUnique(a: int, n: int, q: int, r: int)
    requires n > 0 && 0 <= r < n && a == q * n + r
    ensures a % n == r && a / n == q
  {
    var d := a / n - q;
    assert a == (a / n) * n + a % n;
    assert d * n == r - a % n by {
      assert (a / n - q) * n == (a / n) * n - q * n;
    }
    assert d >= 1 ==> d * n >= n;
    assert d <= -1 ==> d * n <= -n;
  }

  lemma ModShift(a: int, k: int, n: int)
    requires n > 0
    ensures (a + k * n) % n == a % n
  {
    assert a == (a / n) * n + a % n;
    assert a + k * n == (a / n + k) * n + a % n by {
      assert (a / n + k) * n == (a / n) * n + k * n;
    }
    ModUnique(a + k * n, n, a / n + k, a % n);
  }

  lemma ModPlus(a: int, b: int, n: int)
    requires n > 0
    ensures (a % n + b) % n == (a + b) % n
  {
    assert a % n + b == (a + b) + (-(a / n)) * n by {
      assert a == (a / n) * n + a % n;
      assert (-(a / n)) * n == -((a / n) * n);
    }
    ModShift(a + b, -(a / n), n);
  }

  lemma ModCancel(a: int, b: int, c: int, n: int)
    requires n > 0 && a % n == b % n
    ensures (a + c) % n == (b + c) % n
  {
    ModPlus(a, c, n);
    ModPlus(b, c, n);
  }

  lemma NegCongruent(a: int, b: int, n: int)
    requires n > 0 && a % n == b % n
    ensures (-a) % n == (-b) % n
  {
    var k := a / n - b / n;
    assert a == (a / n) * n + a % n && b == (b / n) * n + b % n;
    assert -b == -a + k * n by { assert (a / n - b / n) * n == (a / n) * n - (b / n) * n; }
    ModShift(-a, k, n);
  }

  lemma WrapPlus(p: Vec, q: Vec, width: int, height: int)
    requires width > 0 && height > 0
    ensures Wrap(Plus(Wrap(p, width, height), q), width, height) == Wrap(Plus(p, q), width, height)
  {
    ModPlus(p.x, q.x, width);
    ModPlus(p.y, q.y, height);
  }

  lemma CongruentPlus(p: Vec, q: Vec, r: Vec, width: int, height: int)
    requires width > 0 && height > 0 && Congruent(p, q, width, height)
    ensures Congruent(Plus(p, r), Plus(q, r), width, height)
  {
    ModCancel(p.x, q.x, r.x, width);
    ModCancel(p.y, q.y, r.y, height);
  }

  /** A rectangular table read and written with wrapped coordinates. */
  datatype Grid<T> = Grid(data: seq<seq<T>>, width: int, height: int) {

    ghost predicate Valid() {
      width > 0 && height > 0 && |data| == height &&
      forall y :: 0 <= y < height ==> |data[y]| == width
    }

    predicate InRange(p: Vec) { 0 <= p.x < width && 0 <= p.y < height }

    function Home(p: Vec): (q: Vec)
      requires width > 0 && height > 0
      ensures InRange(q)
      ensures InRange(p) ==> q == p
    {
      Wrap(p, width, height)
    }

    function At(p: Vec): T
      requires Valid()
    {
      data[p.y % height][p.x % width]
    }

    function Set(p: Vec, v: T): (g: Grid<T>)
      requires Valid()
      ensures g.Valid() && g.width == width && g.height == height
      ensures forall q :: g.At(q) == if Home(q) == Home(p) then v else At(q)
    {
      Grid(data[p.y % height := data[p.y % height][p.x % width := v]], width, height)
    }
  }

  function Blank<T>(v: T, width: int, height: int): (g: Grid<T>)
    requires width > 0 && height > 0
    ensures g.Valid() && g.width == width && g.height == height
    ensures forall p :: g.At(p) == v
  {
    Grid(seq(height, _ => seq(width, _ => v)), width, height)
  }

  lemma AtHome<T>(g: Grid<T>, p: Vec)
    requires g.Valid()
    ensures g.At(g.Home(p)) == g.At(p)
  {
    var h := g.Home(p);
    assert h.x % g.width == p.x % g.width && h.y % g.height == p.y % g.height by {
      assert g.Home(h) == h;
    }
  }
}
