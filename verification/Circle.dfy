/** circleColor: the midpoint circle plots exactly the nearest pixels. */
module Circle {
  import opened Torus

  newtype Sint16 = x: int | -0x8000 <= x < 0x8000

  /** b is the pixel row nearest to the circle of radius r in column a: |sqrt(r^2 - a^2) - b| <= 1/2. */
  predicate IsNearest(r: int, a: int, b: int) {
    r * r - b <= a * a + b * b < r * r + b
  }

  /** Pixel p, relative to the centre, lies on the circle: nearest in its column, or in its row, of the octant. */
  predicate OnCircle(r: int, p: Vec) {
    (Abs(p.x) <= Abs(p.y) && IsNearest(r, Abs(p.x), Abs(p.y))) ||
    (Abs(p.y) <= Abs(p.x) && IsNearest(r, Abs(p.y), Abs(p.x)))
  }

  /** Two rows cannot both be nearest. */
  lemma NearestUnique(r: int, a: int, b: int, c: int)
    requires b >= 0 && c >= 0 && IsNearest(r, a, b) && IsNearest(r, a, c)
    ensures b == c
  {
    NearestOrder(r, a, b, c);
    NearestOrder(r, a, c, b);
  }

  lemma NearestOrder(r: int, a: int, b: int, c: int)
    requires b >= 0 && c >= 0 && IsNearest(r, a, b) && IsNearest(r, a, c)
    ensures b <= c
  {
    assert b * b - b < c * c + c;
    assert b >= c + 1 ==> b * (b - 1) >= (c + 1) * c;
  }

  /** The eight (or four) pixels of one step, as plotted by the loop body. */
  function Octants(c: Vec, cx: int, cy: int): seq<Vec> {
    (if cy > 0 then [Vec(c.x - cx, c.y + cy), Vec(c.x + cx, c.y + cy), Vec(c.x - cx, c.y - cy), Vec(c.x + cx, c.y - cy)]
     else [Vec(c.x - cx, c.y), Vec(c.x + cx, c.y)]) +
    (if cx > 0 then [Vec(c.x - cy, c.y + cx), Vec(c.x + cy, c.y + cx), Vec(c.x - cy, c.y - cx), Vec(c.x + cy, c.y - cx)]
     else [Vec(c.x - cy, c.y), Vec(c.x + cy, c.y)])
  }

  lemma OctantsAre(c: Vec, cx: int, cy: int, p: Vec)
    requires 0 <= cx <= cy
    ensures p in Octants(c, cx, cy) <==>
            (Abs(p.x - c.x) == cx && Abs(p.y - c.y) == cy) || (Abs(p.x - c.x) == cy && Abs(p.y - c.y) == cx)
  {}

  /** The loop state in exact arithmetic. */
  ghost predicate Stepping(r: int, cx: int, cy: int, df: int, de: int, dse: int) {
    0 <= cx && 0 <= cy <= r && IsNearest(r, cx, cy) &&
    df == (cx + 1) * (cx + 1) + cy * cy - cy - r * r && de == 2 * cx + 3 && dse == 2 * (cx - cy) + 5
  }

  lemma StepRange(r: int, cx: int, cy: int, df: int, de: int, dse: int)
    requires Stepping(r, cx, cy, df, de, dse) && cx <= cy
    ensures 2 * cx + 1 - 2 * cy <= df < 2 * cx + 1
    ensures cy == r ==> df > -r
  {
    assert (cx + 1) * (cx + 1) == cx * cx + 2 * cx + 1;
    assert cx * cx >= 0;
  }

  predicate Short(x: int) { -0x8000 <= x < 0x8000 }

  /** No update of the decision variables leaves 16 bits. */
  lemma StaysShort(r: int, cx: int, cy: int, df: int, de: int, dse: int)
    requires Stepping(r, cx, cy, df, de, dse) && cx <= cy && 0 < r <= 16386
    ensures 0 <= cx <= cy <= r
    ensures df < 0 ==> Short(df + de) && Short(de + 2) && Short(dse + 2)
    ensures df >= 0 ==> Short(df + dse) && Short(de + 2) && Short(dse + 4) && cy > 0
  {
    hide Stepping;
    StepRange(r, cx, cy, df, de, dse);
    StepVars(r, cx, cy, df, de, dse);
    SteppingNearest(r, cx, cy, df, de, dse);
    FewColumns(r, cx, cy);
  }

  lemma StepVars(r: int, cx: int, cy: int, df: int, de: int, dse: int)
    requires Stepping(r, cx, cy, df, de, dse) && r > 0 && cx <= cy
    ensures 0 <= cx && 0 < cy <= r && de == 2 * cx + 3 && dse == 2 * (cx - cy) + 5
  {
    assert cy == 0 ==> cx * cx + cy * cy == 0;
    assert r * r > 0;
  }

  /** The columns end before the diagonal. */
  lemma FewColumns(r: int, cx: int, cy: int)
    requires 0 <= cx <= cy && IsNearest(r, cx, cy) && 0 < r <= 16386
    ensures cx <= 12000
  {
    SquareOrder(cx, cy);
    SquareOrder(r, 16386);
    assert 16386 * 16386 == 268500996 && 12000 * 11999 == 143988000;
    if cx > 0 { CyLess(cx, cy); }
    if cx > 12000 { CyLess(12000, cx); }
  }

  lemma SquareOrder(a: int, b: int)
    requires 0 <= a <= b
    ensures a * a <= b * b
  {
    assert a * a <= a * b <= b * b;
  }

  lemma CyLess(cx: int, cy: int)
    requires 0 < cx <= cy
    ensures cx * cx - cx <= cy * cy - cy
  {
    assert cx * (cx - 1) <= cy * (cy - 1);
  }

  lemma StepEast(r: int, cx: int, cy: int, df: int, de: int, dse: int)
    requires Stepping(r, cx, cy, df, de, dse) && df < 0
    ensures Stepping(r, cx + 1, cy, df + de, de + 2, dse + 2)
  {
    assert (cx + 1) * (cx + 1) == cx * cx + 2 * cx + 1;
    assert (cx + 2) * (cx + 2) == (cx + 1) * (cx + 1) + 2 * cx + 3;
  }

  lemma StepSouthEast(r: int, cx: int, cy: int, df: int, de: int, dse: int)
    requires Stepping(r, cx, cy, df, de, dse) && df >= 0 && cx + 1 <= cy - 1
    ensures Stepping(r, cx + 1, cy - 1, df + dse, de + 2, dse + 4)
  {
    assert (cx + 1) * (cx + 1) == cx * cx + 2 * cx + 1;
    assert (cx + 2) * (cx + 2) == (cx + 1) * (cx + 1) + 2 * cx + 3;
    assert (cy - 1) * (cy - 1) == cy * cy - 2 * cy + 1;
  }

  /** Pixels of all columns below cx. */
  ghost predicate PlottedTo(c: Vec, r: int, pixels: seq<Vec>, cx: int) {
    forall p :: p in pixels <==>
      var q := Minus(p, c);
      OnCircle(r, q) && (if Abs(q.x) <= Abs(q.y) then Abs(q.x) else Abs(q.y)) < cx
  }

  lemma PlotColumn(c: Vec, r: int, pixels: seq<Vec>, cx: int, cy: int)
    requires PlottedTo(c, r, pixels, cx) && 0 <= cx <= cy && IsNearest(r, cx, cy)
    ensures PlottedTo(c, r, pixels + Octants(c, cx, cy), cx + 1)
  {
    hide IsNearest, Octants;
    var more := pixels + Octants(c, cx, cy);
    forall p
      ensures p in more <==>
        var q := Minus(p, c);
        OnCircle(r, q) && (if Abs(q.x) <= Abs(q.y) then Abs(q.x) else Abs(q.y)) < cx + 1
    {
      OctantsAre(c, cx, cy, p);
      var q := Minus(p, c);
      var a := if Abs(q.x) <= Abs(q.y) then Abs(q.x) else Abs(q.y);
      var b := if Abs(q.x) <= Abs(q.y) then Abs(q.y) else Abs(q.x);
      if a == cx && IsNearest(r, a, b) { NearestUnique(r, cx, b, cy); }
    }
  }

  /** When the loop ends, r^2 <= 2n^2 - n for the next column n = cx + 1. */
  lemma EndBound(r: int, cx: int, cy: int, df: int, de: int, dse: int)
    requires Stepping(r, cx, cy, df, de, dse) && cx <= cy
    requires (df < 0 && cx + 1 > cy) || (df >= 0 && cx + 1 > cy - 1)
    ensures r * r <= 2 * ((cx + 1) * (cx + 1)) - (cx + 1)
  {
    assert (cx + 1) * (cx + 1) == cx * cx + 2 * cx + 1;
  }

  lemma {:induction false} SquareGrows(n: int, a: int)
    requires 0 < n <= a
    ensures a * a - n * n >= a - n
    decreases a
  {
    if n < a {
      SquareGrows(n, a - 1);
      assert a * a == (a - 1) * (a - 1) + 2 * a - 1;
    }
  }

  /** Past that bound no pixel of the octant is nearest in its column. */
  lemma BeyondEnd(r: int, n: int, a: int, b: int)
    requires 0 < n <= a <= b && r * r <= 2 * (n * n) - n
    ensures !IsNearest(r, a, b)
  {
    SquareGrows(n, a);
    SquareGrows(n, b);
  }

  lemma EndColumns(r: int, cx: int, cy: int, df: int, de: int, dse: int)
    requires Stepping(r, cx, cy, df, de, dse) && cx <= cy
    requires (df < 0 && cx + 1 > cy) || (df >= 0 && cx + 1 > cy - 1)
    ensures forall a, b :: cx + 1 <= a <= b ==> !IsNearest(r, a, b)
  {
    EndBound(r, cx, cy, df, de, dse);
    forall a, b | cx + 1 <= a <= b
      ensures !IsNearest(r, a, b)
    {
      BeyondEnd(r, cx + 1, a, b);
    }
  }

  /** The pixels plotted for a circle with centre c; the types make sure no variable overflows. */
  method CirclePixels(c: Vec, r: Sint16) returns (res: int, pixels: seq<Vec>)
    requires r <= 16386
    ensures r < 0 ==> res == -1 && pixels == []
    ensures r >= 0 ==> res == 0
    ensures r == 0 ==> pixels == [c]
    ensures r > 0 ==> forall p :: p in pixels <==> OnCircle(r as int, Minus(p, c))
  {
    if r < 0 {
      return -1, [];
    }
    if r == 0 {
      return 0, [c];
    }
    hide IsNearest, Octants, PlottedTo, OnCircle, Abs, Stepping;
    var cx: Sint16, cy: Sint16 := 0, r;
    var df: Sint16, d_e: Sint16, d_se: Sint16 := 1 - r, 3, (-2 * (r as int) + 5) as Sint16;
    var ocx: Sint16, ocy: Sint16 := -1, -1;
    pixels := [];
    ghost var n := r as int;
    StartsNearest(n);
    while true
      invariant Stepping(n, cx as int, cy as int, df as int, d_e as int, d_se as int) && cx <= cy
      invariant PlottedTo(c, n, pixels, cx as int) && ocx < cx
      decreases cy - cx
    {
      StaysShort(n, cx as int, cy as int, df as int, d_e as int, d_se as int);
      SteppingNearest(n, cx as int, cy as int, df as int, d_e as int, d_se as int);
      PlotColumn(c, n, pixels, cx as int, cy as int);
      if ocy != cy || ocx != cx {
        pixels := pixels + Octants(c, cx as int, cy as int);
        ocy, ocx := cy, cx;
      }
      ghost var x0, y0, f0, e0, se0 := cx as int, cy as int, df as int, d_e as int, d_se as int;
      if df < 0 {
        StepEast(n, x0, y0, f0, e0, se0);
        df := df + d_e;
        d_e := d_e + 2;
        d_se := d_se + 2;
      } else {
        if x0 + 1 <= y0 - 1 { StepSouthEast(n, x0, y0, f0, e0, se0); }
        df := df + d_se;
        d_e := d_e + 2;
        d_se := d_se + 4;
        cy := cy - 1;
      }
      cx := cx + 1;
      if !(cx <= cy) {
        EndColumns(n, x0, y0, f0, e0, se0);
        break;
      }
    }
    res := 0;
    PlottedAll(c, n, pixels, cx as int);
  }

  lemma SteppingNearest(r: int, cx: int, cy: int, df: int, de: int, dse: int)
    requires Stepping(r, cx, cy, df, de, dse)
    ensures IsNearest(r, cx, cy)
  {}

  lemma PlottedAll(c: Vec, r: int, pixels: seq<Vec>, cx: int)
    requires PlottedTo(c, r, pixels, cx) && forall a, b :: cx <= a <= b ==> !IsNearest(r, a, b)
    ensures forall p :: p in pixels <==> OnCircle(r, Minus(p, c))
  {
    hide IsNearest;
    forall p ensures p in pixels <==> OnCircle(r, Minus(p, c)) {
      var q := Minus(p, c);
      var a := if Abs(q.x) <= Abs(q.y) then Abs(q.x) else Abs(q.y);
      var b := if Abs(q.x) <= Abs(q.y) then Abs(q.y) else Abs(q.x);
      assert cx <= a ==> !IsNearest(r, a, b);
    }
  }

  lemma StartsNearest(r: int)
    requires r > 0
    ensures Stepping(r, 0, r, 1 - r, 3, -2 * r + 5)
    ensures forall c: Vec :: PlottedTo(c, r, [], 0)
  {}
}
