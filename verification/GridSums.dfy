/** Sums over all cells of a torus: they add up, and shifting the cells does not change them. */
module GridSums {
  import opened Torus

  ghost function RowSum(f: Vec -> int, y: int, n: nat): int {
    if n == 0 then 0 else RowSum(f, y, n - 1) + f(Vec(n - 1, y))
  }

  ghost function RowsSum(f: Vec -> int, width: nat, n: nat): int {
    if n == 0 then 0 else RowsSum(f, width, n - 1) + RowSum(f, n - 1, width)
  }

  ghost function GridSum(f: Vec -> int, width: int, height: int): int
    requires width > 0 && height > 0
  {
    RowsSum(f, width, height)
  }

  ghost predicate AddUp(f: Vec -> int, g: Vec -> int, h: Vec -> int) { forall p :: f(p) + g(p) == h(p) }

  lemma {:induction false} RowAdds(f: Vec -> int, g: Vec -> int, h: Vec -> int, y: int, n: nat)
    requires AddUp(f, g, h)
    ensures RowSum(f, y, n) + RowSum(g, y, n) == RowSum(h, y, n)
  {
    if n > 0 { RowAdds(f, g, h, y, n - 1); }
  }

  lemma {:induction false} RowsAdd(f: Vec -> int, g: Vec -> int, h: Vec -> int, width: nat, n: nat)
    requires AddUp(f, g, h)
    ensures RowsSum(f, width, n) + RowsSum(g, width, n) == RowsSum(h, width, n)
  {
    if n > 0 {
      RowsAdd(f, g, h, width, n - 1);
      RowAdds(f, g, h, n - 1, width);
    }
  }

  lemma GridAdds(f: Vec -> int, g: Vec -> int, h: Vec -> int, width: int, height: int)
    requires width > 0 && height > 0 && AddUp(f, g, h)
    ensures GridSum(f, width, height) + GridSum(g, width, height) == GridSum(h, width, height)
  {
    RowsAdd(f, g, h, width, height);
  }

  lemma {:induction false} RowSame(f: Vec -> int, g: Vec -> int, y: int, n: nat, width: int, height: int)
    requires 0 <= y < height && n <= width && forall p: Vec :: 0 <= p.x < width && 0 <= p.y < height ==> f(p) == g(p)
    ensures RowSum(f, y, n) == RowSum(g, y, n)
  {
    if n > 0 { RowSame(f, g, y, n - 1, width, height); }
  }

  lemma {:induction false} RowsSame(f: Vec -> int, g: Vec -> int, n: nat, width: int, height: int)
    requires width > 0 && n <= height && forall p: Vec :: 0 <= p.x < width && 0 <= p.y < height ==> f(p) == g(p)
    ensures RowsSum(f, width, n) == RowsSum(g, width, n)
  {
    if n > 0 {
      RowsSame(f, g, n - 1, width, height);
      RowSame(f, g, n - 1, width, width, height);
    }
  }

  lemma GridSame(f: Vec -> int, g: Vec -> int, width: int, height: int)
    requires width > 0 && height > 0 && forall p: Vec :: 0 <= p.x < width && 0 <= p.y < height ==> f(p) == g(p)
    ensures GridSum(f, width, height) == GridSum(g, width, height)
  {
    RowsSame(f, g, height, width, height);
  }

  /** c at cell p, nothing elsewhere. */
  ghost function OnlyAt(p: Vec, c: int): Vec -> int { (q: Vec) => if q == p then c else 0 }

  lemma {:induction false} RowOne(p: Vec, c: int, y: int, n: nat)
    requires 0 <= p.x
    ensures RowSum(OnlyAt(p, c), y, n) == if y == p.y && p.x < n then c else 0
  {
    if n > 0 { RowOne(p, c, y, n - 1); }
  }

  lemma {:induction false} RowsOne(p: Vec, c: int, width: nat, n: nat)
    requires 0 <= p.x < width && 0 <= p.y
    ensures RowsSum(OnlyAt(p, c), width, n) == if p.y < n then c else 0
  {
    if n > 0 {
      RowsOne(p, c, width, n - 1);
      RowOne(p, c, n - 1, width);
    }
  }

  lemma GridOne(p: Vec, c: int, width: int, height: int)
    requires 0 <= p.x < width && 0 <= p.y < height
    ensures GridSum(OnlyAt(p, c), width, height) == c
  {
    RowsOne(p, c, width, height);
  }

  // ----- Shifts

  ghost predicate Periodic(f: Vec -> int, width: int, height: int)
    requires width > 0 && height > 0
  {
    forall p, q :: Congruent(p, q, width, height) ==> f(p) == f(q)
  }

  ghost function Shifted(f: Vec -> int, u: Vec): Vec -> int { (p: Vec) => f(Plus(p, u)) }

  lemma PeriodicAt(f: Vec -> int, p: Vec, q: Vec, width: int, height: int)
    requires width > 0 && height > 0 && Periodic(f, width, height) && Congruent(p, q, width, height)
    ensures f(p) == f(q)
  {}

  lemma ShiftedPeriodic(f: Vec -> int, u: Vec, width: int, height: int)
    requires width > 0 && height > 0 && Periodic(f, width, height)
    ensures Periodic(Shifted(f, u), width, height)
  {
    hide Congruent;
    forall p, q | Congruent(p, q, width, height)
      ensures Shifted(f, u)(p) == Shifted(f, u)(q)
    {
      CongruentPlus(p, q, u, width, height);
    }
  }

  lemma WholeTurn(v: Vec, width: int, height: int)
    requires width > 0 && height > 0
    ensures Congruent(Vec(v.x + width, v.y), v, width, height) && Congruent(Vec(v.x, v.y + height), v, width, height)
  {
    ModShift(v.x, 1, width);
    ModShift(v.y, 1, height);
  }

  lemma {:induction false} RowRight(f: Vec -> int, y: int, n: nat)
    ensures RowSum(Shifted(f, Vec(1, 0)), y, n) == RowSum(f, y, n) + f(Vec(n, y)) - f(Vec(0, y))
  {
    if n > 0 {
      RowRight(f, y, n - 1);
      assert Plus(Vec(n - 1, y), Vec(1, 0)) == Vec(n, y);
    }
  }

  lemma {:induction false} RowsRight(f: Vec -> int, width: int, height: int, n: nat)
    requires width > 0 && height > 0 && Periodic(f, width, height)
    ensures RowsSum(Shifted(f, Vec(1, 0)), width, n) == RowsSum(f, width, n)
  {
    if n > 0 {
      hide Periodic;
      RowsRight(f, width, height, n - 1);
      RowRight(f, n - 1, width);
      WholeTurn(Vec(0, n - 1), width, height);
      PeriodicAt(f, Vec(width, n - 1), Vec(0, n - 1), width, height);
    }
  }

  lemma {:induction false} RowDown(f: Vec -> int, y: int, n: nat)
    ensures RowSum(Shifted(f, Vec(0, 1)), y, n) == RowSum(f, y + 1, n)
  {
    if n > 0 {
      RowDown(f, y, n - 1);
      assert Plus(Vec(n - 1, y), Vec(0, 1)) == Vec(n - 1, y + 1);
    }
  }

  lemma {:induction false} RowsDown(f: Vec -> int, width: nat, n: nat)
    ensures RowsSum(Shifted(f, Vec(0, 1)), width, n) == RowsSum(f, width, n) + RowSum(f, n, width) - RowSum(f, 0, width)
  {
    if n > 0 {
      RowsDown(f, width, n - 1);
      RowDown(f, n - 1, width);
    }
  }

  lemma {:induction false} RowPeriodic(f: Vec -> int, width: int, height: int, n: nat)
    requires width > 0 && height > 0 && Periodic(f, width, height)
    ensures RowSum(f, height, n) == RowSum(f, 0, n)
  {
    if n > 0 {
      hide Periodic;
      RowPeriodic(f, width, height, n - 1);
      WholeTurn(Vec(n - 1, 0), width, height);
      PeriodicAt(f, Vec(n - 1, height), Vec(n - 1, 0), width, height);
    }
  }

  lemma SameShift(f: Vec -> int, u: Vec, v: Vec, w: Vec, width: int, height: int)
    requires width > 0 && height > 0 && w == Plus(u, v)
    ensures GridSum(Shifted(Shifted(f, u), v), width, height) == GridSum(Shifted(f, w), width, height)
  {
    forall p: Vec ensures Shifted(Shifted(f, u), v)(p) == Shifted(f, w)(p) { assert Plus(Plus(p, v), u) == Plus(p, w); }
    GridSame(Shifted(Shifted(f, u), v), Shifted(f, w), width, height);
  }

  lemma SameNone(f: Vec -> int, width: int, height: int)
    requires width > 0 && height > 0
    ensures GridSum(Shifted(f, Vec(0, 0)), width, height) == GridSum(f, width, height)
  {
    forall p: Vec ensures Shifted(f, Vec(0, 0))(p) == f(p) { assert Plus(p, Vec(0, 0)) == p; }
    GridSame(Shifted(f, Vec(0, 0)), f, width, height);
  }

  /** One step right or down. */
  lemma ShiftOnce(f: Vec -> int, u: Vec, width: int, height: int)
    requires width > 0 && height > 0 && Periodic(f, width, height) && u in {Vec(1, 0), Vec(0, 1)}
    ensures GridSum(Shifted(f, u), width, height) == GridSum(f, width, height)
  {
    if u == Vec(1, 0) {
      RowsRight(f, width, height, height);
    } else {
      RowsDown(f, width, height);
      RowPeriodic(f, width, height, width);
    }
  }

  /** Or back. */
  lemma ShiftBack(f: Vec -> int, u: Vec, width: int, height: int)
    requires width > 0 && height > 0 && Periodic(f, width, height) && u in {Vec(1, 0), Vec(0, 1)}
    ensures GridSum(Shifted(f, Vec(-u.x, -u.y)), width, height) == GridSum(f, width, height)
  {
    var g := Shifted(f, Vec(-u.x, -u.y));
    ShiftedPeriodic(f, Vec(-u.x, -u.y), width, height);
    ShiftOnce(g, u, width, height);
    SameShift(f, Vec(-u.x, -u.y), u, Vec(0, 0), width, height);
    SameNone(f, width, height);
  }

  lemma ShiftAxis(f: Vec -> int, u: Vec, width: int, height: int)
    requires width > 0 && height > 0 && Periodic(f, width, height)
    requires (u.x == 0 && -1 <= u.y <= 1) || (u.y == 0 && -1 <= u.x <= 1)
    ensures GridSum(Shifted(f, u), width, height) == GridSum(f, width, height)
  {
    if u == Vec(0, 0) { SameNone(f, width, height); }
    else if u.x > 0 || u.y > 0 { ShiftOnce(f, u, width, height); }
    else { ShiftBack(f, Vec(-u.x, -u.y), width, height); }
  }

  /** A step in any of the eight directions does not change the sum. */
  lemma ShiftSum(f: Vec -> int, u: Vec, width: int, height: int)
    requires width > 0 && height > 0 && Periodic(f, width, height) && -1 <= u.x <= 1 && -1 <= u.y <= 1
    ensures GridSum(Shifted(f, u), width, height) == GridSum(f, width, height)
  {
    hide GridSum, Periodic;
    var g := Shifted(f, Vec(u.x, 0));
    ShiftAxis(f, Vec(u.x, 0), width, height);
    ShiftedPeriodic(f, Vec(u.x, 0), width, height);
    ShiftAxis(g, Vec(0, u.y), width, height);
    SameShift(f, Vec(u.x, 0), Vec(0, u.y), u, width, height);
  }
}
