/** The extended Euclid loop of poly_handle_totalwrap: the crosswise displacement of a cut. */
module TotalWrap {
  import opened Options

  /** Division that rounds down, whatever the sign of the divisor. */
  function FloorDiv(a: int, b: int): int
    requires b != 0
  {
    if b > 0 then a / b else (-a) / (-b)
  }

  lemma FloorRest(a: int, b: int)
    requires b != 0
    ensures var r := a - FloorDiv(a, b) * b; if b > 0 then 0 <= r < b else b < r <= 0
  {
    if b > 0 {
      assert a == (a / b) * b + a % b;
    } else {
      assert -a == ((-a) / (-b)) * (-b) + (-a) % (-b);
      assert ((-a) / (-b)) * (-b) == -(((-a) / (-b)) * b);
    }
  }

  ghost predicate Divides(d: int, a: int) {
    exists k :: k * d == a
  }

  lemma DividesCombination(d: int, a: int, b: int, k: int)
    requires Divides(d, a) && Divides(d, b)
    ensures Divides(d, b - k * a)
  {
    var x :| x * d == a;
    var y :| y * d == b;
    assert (y - k * x) * d == b - k * a by {
      assert (y - k * x) * d == y * d - (k * x) * d;
      assert (k * x) * d == k * (x * d);
    }
  }

  lemma DividesBack(d: int, a: int, b: int, k: int)
    requires Divides(d, a) && Divides(d, b - k * a)
    ensures Divides(d, b)
  {
    DividesCombination(d, a, b - k * a, -k);
    assert b - k * a - (-k) * a == b;
  }

  lemma DividesZero(d: int)
    ensures Divides(d, 0) && Divides(d, d)
  {
    assert 0 * d == 0 && 1 * d == d;
  }

  /** d divides both wrap counts. */
  ghost predicate Common(d: int, p: int, q: int) { Divides(d, p) && Divides(d, q) }

  datatype Row = Row(u: int, v: int, r: int)

  /** The row is the combination of p and q that its first entries say. */
  predicate Combines(a: Row, p: int, q: int) { a.u * p + a.v * q == a.r }

  lemma CombinesStep(a: Row, b: Row, p: int, q: int, d: int)
    requires Combines(a, p, q) && Combines(b, p, q)
    ensures Combines(Row(b.u - d * a.u, b.v - d * a.v, b.r - d * a.r), p, q)
  {
    assert (b.u - d * a.u) * p == b.u * p - d * (a.u * p);
    assert (b.v - d * a.v) * q == b.v * q - d * (a.v * q);
    assert d * (a.u * p) + d * (a.v * q) == d * (a.u * p + a.v * q);
  }

  /**
   * For an outline that wraps p times horizontally and q times vertically: the displacement
   * (x, y) that crosses it exactly once, or nothing when the source's assertion on the greatest
   * common divisor fails, which happens exactly when p and q have another common divisor.
   */
  method CrossWrap(p: int, q: int) returns (res: Option<(int, int)>)
    ensures res.Some? ==> q * res.value.0 - p * res.value.1 == 1
    ensures res.Some? <==> forall d :: Common(d, p, q) ==> d == 1 || d == -1
  {
    var a, b := Row(1, 0, p), Row(0, 1, q);
    while a.r != 0
      invariant Combines(a, p, q) && Combines(b, p, q)
      invariant forall d :: Common(d, a.r, b.r) <==> Common(d, p, q)
      decreases if a.r >= 0 then a.r else -a.r
    {
      var d := FloorDiv(b.r, a.r);
      FloorRest(b.r, a.r);
      CombinesStep(a, b, p, q, d);
      CommonStep(a.r, b.r, d);
      a, b := Row(b.u - d * a.u, b.v - d * a.v, b.r - d * a.r), a;
    }
    DividesZero(b.r);
    if b.r == 1 || b.r == -1 {
      res := Some((b.v * b.r, -b.u * b.r));
      CrossOnce(b, p, q);
      forall d | Common(d, p, q) ensures d == 1 || d == -1 {
        assert Common(d, 0, b.r);
        var k :| k * d == b.r;
        UnitFactor(k, d);
      }
    } else {
      res := None;
      assert Common(b.r, p, q);
    }
  }

  lemma CommonStep(a: int, b: int, k: int)
    ensures forall d :: Common(d, b - k * a, a) <==> Common(d, a, b)
  {
    forall d ensures Common(d, b - k * a, a) <==> Common(d, a, b) {
      if Common(d, a, b) { DividesCombination(d, a, b, k); }
      if Common(d, b - k * a, a) { DividesBack(d, a, b, k); }
    }
  }

  lemma CrossOnce(b: Row, p: int, q: int)
    requires Combines(b, p, q) && (b.r == 1 || b.r == -1)
    ensures q * (b.v * b.r) - p * (-b.u * b.r) == 1
  {}

  lemma UnitFactor(k: int, d: int)
    requires k * d == 1 || k * d == -1
    ensures d == 1 || d == -1
  {
    assert d >= 2 && k >= 1 ==> k * d >= 2;
    assert d >= 2 && k <= -1 ==> k * d <= -2;
    assert d <= -2 && k >= 1 ==> k * d <= -2;
    assert d <= -2 && k <= -1 ==> k * d >= 2;
  }
}
