/** lineColor: the two line loops, after clipping and the special cases for straight lines. */
module Line {
  import opened Torus

  function Sign(d: int): int { if d >= 0 then 1 else -1 }

  function Major(a: Vec, b: Vec): nat {
    var v := Minus(b, a);
    if Abs(v.x) < Abs(v.y) then Abs(v.y) else Abs(v.x)
  }

  function Minor(a: Vec, b: Vec): nat {
    var v := Minus(b, a);
    if Abs(v.x) < Abs(v.y) then Abs(v.x) else Abs(v.y)
  }

  /** k pixels from a along the longer axis and j along the shorter, both towards b. */
  function Along(a: Vec, b: Vec, k: int, j: int): Vec {
    var v := Minus(b, a);
    if Abs(v.x) < Abs(v.y) then Vec(a.x + Sign(v.x) * j, a.y + Sign(v.y) * k)
    else Vec(a.x + Sign(v.x) * k, a.y + Sign(v.y) * j)
  }

  /** A pixel buffer: the address of the origin and the strides of a column and of a row. */
  datatype Surface = Surface(pixels: int, column: int, row: int)

  function Address(s: Surface, p: Vec): int { s.pixels + s.column * p.x + s.row * p.y }

  /** Rows climbed after k columns by the opaque loop. */
  function Climb(k: nat, major: nat, minor: nat): nat { (k * (minor + 1)) / (major + 1) }

  function OpaquePoint(a: Vec, b: Vec, k: nat): Vec { Along(a, b, k, Climb(k, Major(a, b), Minor(a, b))) }

  lemma ClimbIs(k: nat, major: nat, minor: nat, j: int)
    requires 0 <= k * (minor + 1) - j * (major + 1) < major + 1
    ensures Climb(k, major, minor) == j
  {
    ModUnique(k * (minor + 1), major + 1, j, k * (minor + 1) - j * (major + 1));
  }

  /** What one step along either axis adds to the address. */
  lemma AddressSteps(s: Surface, a: Vec, b: Vec, k: int, j: int, px: int, py: int)
    requires var v := Minus(b, a); var (cx, cy) := (s.column * Sign(v.x), s.row * Sign(v.y));
             (px, py) == if Abs(v.x) < Abs(v.y) then (cy, cx) else (cx, cy)
    ensures Address(s, Along(a, b, k + 1, j)) == Address(s, Along(a, b, k, j)) + px
    ensures Address(s, Along(a, b, k, j + 1)) == Address(s, Along(a, b, k, j)) + py
    ensures Along(a, b, 0, 0) == a
  {
    var v, p := Minus(b, a), Along(a, b, k, j);
    AddressMove(s, p, Sign(v.x), 0);
    AddressMove(s, p, 0, Sign(v.y));
  }

  lemma AddressMove(s: Surface, p: Vec, x: int, y: int)
    ensures Address(s, Vec(p.x + x, p.y + y)) == Address(s, p) + s.column * x + s.row * y
  {
    assert s.column * (p.x + x) == s.column * p.x + s.column * x;
    assert s.row * (p.y + y) == s.row * p.y + s.row * y;
  }

  /** The climbs made after x columns, and the remainder y. */
  ghost predicate Climbed(x: nat, y: int, climbed: int, dx: int, dy: int) {
    y == x * dy - climbed * dx && 0 <= y < dx && 0 < dy <= dx
  }

  lemma ClimbedNext(x: nat, y: int, climbed: int, dx: int, dy: int)
    requires Climbed(x, y, climbed, dx, dy)
    ensures Climb(x, dx - 1, dy - 1) == climbed
    ensures if y + dy >= dx then Climbed(x + 1, y + dy - dx, climbed + 1, dx, dy)
            else Climbed(x + 1, y + dy, climbed, dx, dy)
  {
    ClimbIs(x, dx - 1, dy - 1, climbed);
    assert (x + 1) * dy == x * dy + dy;
    assert (climbed + 1) * dx == climbed * dx + dx;
  }

  /** The addresses the opaque loop writes, in order. */
  method OpaqueLine(s: Surface, a: Vec, b: Vec) returns (writes: seq<int>)
    ensures |writes| == Major(a, b) + 1
    ensures forall k :: 0 <= k < |writes| ==> writes[k] == Address(s, OpaquePoint(a, b, k))
  {
    hide Address, Along, Climb;
    var dx, dy := b.x - a.x, b.y - a.y;
    var sx, sy := Sign(dx), Sign(dy);
    dx, dy := sx * dx + 1, sy * dy + 1;
    var pixx, pixy := s.column, s.row;
    var pixel := s.pixels + pixx * a.x + pixy * a.y;
    assert pixel == Address(s, a) by { AddressIs(s, a); }
    pixx, pixy := pixx * sx, pixy * sy;
    if dx < dy {
      dx, dy := dy, dx;
      pixx, pixy := pixy, pixx;
    }
    assert dx == Major(a, b) + 1 && dy == Minor(a, b) + 1;
    var x, y := 0, 0;
    writes := [];
    ghost var climbed := 0;
    AddressSteps(s, a, b, 0, 0, pixx, pixy);
    while x < dx
      invariant 0 <= x <= dx && |writes| == x && Climbed(x, y, climbed, dx, dy)
      invariant pixel == Address(s, Along(a, b, x, climbed))
      invariant forall k :: 0 <= k < x ==> writes[k] == Address(s, OpaquePoint(a, b, k))
    {
      hide Climbed;
      ClimbedNext(x, y, climbed, dx, dy);
      AddressSteps(s, a, b, x, climbed, pixx, pixy);
      AddressSteps(s, a, b, x, climbed + 1, pixx, pixy);
      writes := writes + [pixel];
      y := y + dy;
      if y >= dx {
        y := y - dx;
        pixel := pixel + pixy;
        climbed := climbed + 1;
      }
      pixel := pixel + pixx;
      x := x + 1;
    }
  }

  lemma AddressIs(s: Surface, p: Vec)
    ensures Address(s, p) == s.pixels + s.column * p.x + s.row * p.y
  {}

  /** q lies in the box with corners a and b. */
  predicate InBox(a: Vec, b: Vec, q: Vec) {
    (a.x <= q.x <= b.x || b.x <= q.x <= a.x) && (a.y <= q.y <= b.y || b.y <= q.y <= a.y)
  }

  /** Neighbours, also diagonally. */
  predicate Touch(p: Vec, q: Vec) { p != q && Abs(p.x - q.x) <= 1 && Abs(p.y - q.y) <= 1 }

  /** The distance from q to the ideal line, measured along the shorter axis, is at most t/n pixels. */
  predicate Within(a: Vec, b: Vec, q: Vec, t: int, n: int) {
    Abs((q.x - a.x) * (b.y - a.y) - (q.y - a.y) * (b.x - a.x)) * n <= t * Major(a, b)
  }

  lemma CrossAlong(a: Vec, b: Vec, k: int, j: int)
    ensures var q := Along(a, b, k, j);
            Abs((q.x - a.x) * (b.y - a.y) - (q.y - a.y) * (b.x - a.x)) == Abs(k * Minor(a, b) - j * Major(a, b))
  {
    var v := Minus(b, a);
    assert v.x == Sign(v.x) * Abs(v.x) && v.y == Sign(v.y) * Abs(v.y);
    CrossSigns(k, j, Sign(v.x), Sign(v.y), Abs(v.x), Abs(v.y));
    CrossSigns(j, k, Sign(v.x), Sign(v.y), Abs(v.x), Abs(v.y));
  }

  lemma CrossSigns(k: int, j: int, sx: int, sy: int, m: int, n: int)
    requires (sx == 1 || sx == -1) && (sy == 1 || sy == -1)
    ensures Abs(sx * k * (sy * n) - sy * j * (sx * m)) == Abs(k * n - j * m)
  {
    assert sx == 1 ==> sx * k == k && sx * m == m;
    assert sx == -1 ==> sx * k == -k && sx * m == -m;
    assert sy == 1 ==> sy * n == n && sy * j == j;
    assert sy == -1 ==> sy * n == -n && sy * j == -j;
    assert (-k) * (-n) == k * n && (-j) * (-m) == j * m && (-k) * n == -(k * n) && k * (-n) == -(k * n) &&
           (-j) * m == -(j * m) && j * (-m) == -(j * m);
  }

  /** Climbs start at 0, end at minor, rise by at most one a step and stay within one pixel of the slope. */
  lemma ClimbShape(k: nat, major: nat, minor: nat)
    requires minor <= major && k <= major
    ensures 0 <= Climb(k, major, minor) <= minor
    ensures k == 0 ==> Climb(k, major, minor) == 0
    ensures k == major ==> Climb(k, major, minor) == minor
    ensures Climb(k, major, minor) <= Climb(k + 1, major, minor) <= Climb(k, major, minor) + 1
    ensures Abs(k * minor - Climb(k, major, minor) * major) <= major
  {
    var j := Climb(k, major, minor);
    var r := (k * (minor + 1)) % (major + 1);
    assert k * (minor + 1) == j * (major + 1) + r;
    assert k * minor + k == j * major + j + r;
    assert (k + 1) * (minor + 1) == k * (minor + 1) + minor + 1;
    if r + minor + 1 <= major {
      ModUnique((k + 1) * (minor + 1), major + 1, j, r + minor + 1);
    } else {
      assert (j + 1) * (major + 1) == j * (major + 1) + major + 1;
      ModUnique((k + 1) * (minor + 1), major + 1, j + 1, r + minor - major);
    }
    ClimbEnds(k, major, minor, j, r);
  }

  /** Comparing two multiples of n through their sizes. */
  lemma Quotient(j: int, i: int, n: int)
    requires n > 0
    ensures j * n < i * n + n ==> j <= i
    ensures j * n > i * n - n ==> j >= i
  {
    assert j - i >= 1 ==> (j - i) * n >= n;
    assert i - j >= 1 ==> (i - j) * n >= n;
    assert (j - i) * n == j * n - i * n && (i - j) * n == i * n - j * n;
  }

  lemma ClimbEnds(k: nat, major: nat, minor: nat, j: int, r: int)
    requires minor <= major && k <= major && k * (minor + 1) == j * (major + 1) + r && 0 <= r <= major
    ensures 0 <= j <= minor && j <= k
    ensures k == 0 ==> j == 0
    ensures k == major ==> j == minor
  {
    var n := major + 1;
    assert 0 <= k * (minor + 1) <= k * n by { MulOrder(minor + 1, n, k); MulOrder(0, minor + 1, k); }
    assert k * (minor + 1) <= major * (minor + 1) by { MulOrder(k, major, minor + 1); }
    assert major * (minor + 1) == minor * n + major - minor;
    Quotient(j, k, n);
    Quotient(j, 0, n);
    Quotient(j, minor, n);
  }

  lemma MulOrder(a: int, b: int, c: int)
    requires a <= b && c >= 0
    ensures a * c <= b * c && c * a <= c * b
  {
    assert (b - a) * c >= 0;
    assert (b - a) * c == b * c - a * c;
  }

  /** The shape both loops give a line: from a to b by neighbours inside their box, near the ideal line. */
  ghost predicate IsLine(a: Vec, b: Vec, pixels: seq<Vec>, t: int, n: int) {
    |pixels| == Major(a, b) + 1 && pixels[0] == a && pixels[|pixels| - 1] == b &&
    (forall k :: 0 <= k < |pixels| ==> InBox(a, b, pixels[k]) && Within(a, b, pixels[k], t, n)) &&
    (forall k :: 1 <= k < |pixels| ==> Touch(pixels[k - 1], pixels[k]))
  }

  /** What makes climbs j(0), j(1), ... draw a line. */
  ghost predicate GoodClimbs(js: seq<int>, major: nat, minor: nat, t: int, n: int) {
    |js| == major + 1 && js[0] == 0 && js[major] == minor &&
    (forall k :: 0 <= k <= major ==> 0 <= js[k] <= minor && Abs(k * minor - js[k] * major) * n <= t * major) &&
    (forall k :: 1 <= k <= major ==> js[k - 1] <= js[k] <= js[k - 1] + 1)
  }

  lemma AlongBox(a: Vec, b: Vec, k: int, j: int)
    requires 0 <= k <= Major(a, b) && 0 <= j <= Minor(a, b)
    ensures InBox(a, b, Along(a, b, k, j))
    ensures k == 0 && j == 0 ==> Along(a, b, k, j) == a
    ensures k == Major(a, b) && j == Minor(a, b) ==> Along(a, b, k, j) == b
  {}

  lemma AlongTouch(a: Vec, b: Vec, k: int, j: int, i: int)
    requires j <= i <= j + 1
    ensures Touch(Along(a, b, k, j), Along(a, b, k + 1, i))
  {}

  lemma AlongWithin(a: Vec, b: Vec, k: int, j: int, t: int, n: int)
    requires Abs(k * Minor(a, b) - j * Major(a, b)) * n <= t * Major(a, b)
    ensures Within(a, b, Along(a, b, k, j), t, n)
  {
    hide Along, Major, Minor;
    CrossAlong(a, b, k, j);
  }

  lemma GoodLine(a: Vec, b: Vec, js: seq<int>, t: int, n: int)
    requires GoodClimbs(js, Major(a, b), Minor(a, b), t, n)
    ensures IsLine(a, b, seq(|js|, k requires 0 <= k < |js| => Along(a, b, k, js[k])), t, n)
  {
    hide Along, Major, Minor, InBox, Touch, Within, Abs;
    var pixels := seq(|js|, k requires 0 <= k < |js| => Along(a, b, k, js[k]));
    forall k | 0 <= k < |js|
      ensures InBox(a, b, pixels[k]) && Within(a, b, pixels[k], t, n)
    {
      AlongBox(a, b, k, js[k]);
      AlongWithin(a, b, k, js[k], t, n);
    }
    AlongBox(a, b, 0, js[0]);
    AlongBox(a, b, |js| - 1, js[|js| - 1]);
    forall k | 1 <= k < |js|
      ensures Touch(pixels[k - 1], pixels[k])
    {
      AlongTouch(a, b, k - 1, js[k - 1], js[k]);
    }
  }

  /** The pixels of the opaque loop, as points. */
  function OpaquePixels(a: Vec, b: Vec): seq<Vec> { seq(Major(a, b) + 1, k requires 0 <= k => OpaquePoint(a, b, k)) }

  lemma MinorMajor(a: Vec, b: Vec)
    ensures Minor(a, b) <= Major(a, b)
  {}

  /** The opaque line joins its ends through touching pixels, none more than one pixel off the ideal line. */
  lemma OpaqueShape(a: Vec, b: Vec)
    ensures IsLine(a, b, OpaquePixels(a, b), 1, 1)
  {
    hide Along, Climb, Abs, IsLine;
    var n, m := Major(a, b), Minor(a, b);
    assert m <= n by { MinorMajor(a, b); }
    var js := seq(n + 1, k requires 0 <= k => Climb(k, n, m));
    assert GoodClimbs(js, n, m, 1, 1) by {
      forall k | 0 <= k <= n
        ensures 0 <= js[k] <= m && Abs(k * m - js[k] * n) <= n && (k == 0 ==> js[k] == 0) && (k == n ==> js[k] == m)
      {
        ClimbShape(k, n, m);
      }
      forall k | 1 <= k <= n
        ensures js[k - 1] <= js[k] <= js[k - 1] + 1
      {
        ClimbShape(k - 1, n, m);
      }
    }
    GoodLine(a, b, js, 1, 1);
    assert OpaquePixels(a, b) == seq(|js|, k requires 0 <= k < |js| => Along(a, b, k, js[k]));
  }

  /** k * minor / major rounded to the nearest whole number, a half up or down. */
  function Rounded(k: int, major: int, minor: int, up: bool): int
    requires major >= 0
  {
    if major == 0 then 0
    else if up then (2 * (k * minor) + major) / (2 * major)
    else (2 * (k * minor) + major - 1) / (2 * major)
  }

  /** Whether a half is rounded towards b: when the line runs towards larger coordinates on its longer axis. */
  predicate HalfUp(a: Vec, b: Vec) {
    var v := Minus(b, a);
    if Abs(v.x) > Abs(v.y) then v.x >= 0 else v.y >= 0
  }

  function BlendPoint(a: Vec, b: Vec, k: nat): Vec {
    Along(a, b, k, Rounded(k, Major(a, b), Minor(a, b), HalfUp(a, b)))
  }

  lemma RoundedIs(k: int, major: int, minor: int, up: bool, j: int)
    requires major > 0
    ensures Rounded(k, major, minor, up) == j <==>
            if up then -major < 2 * (j * major) - 2 * (k * minor) <= major
            else -major <= 2 * (j * major) - 2 * (k * minor) < major
  {
    var n := 2 * (k * minor) + if up then major else major - 1;
    var q := n / (2 * major);
    assert n == q * (2 * major) + n % (2 * major);
    assert j * (2 * major) == 2 * (j * major);
    if 0 <= n - j * (2 * major) < 2 * major { ModUnique(n, 2 * major, j, n - j * (2 * major)); }
  }

  /** The state of the blending loops after k columns and j climbs. */
  ghost predicate Blending(a: Vec, b: Vec, pixels: seq<Vec>, p: Vec, d: int, j: int) {
    var k, n, m := |pixels|, Major(a, b), Minor(a, b);
    && k <= n && p == Along(a, b, k, j) && j == Rounded(k, n, m, HalfUp(a, b))
    && d == 2 * (k * m) + 2 * m - n - 2 * (j * n) && (n == m ==> j == k)
    && forall i :: 0 <= i < k ==> pixels[i] == BlendPoint(a, b, i)
  }

  predicate Steep(a: Vec, b: Vec) { Abs(b.x - a.x) <= Abs(b.y - a.y) }

  lemma BlendStart(a: Vec, b: Vec)
    ensures Blending(a, b, [], a, 2 * Minor(a, b) - Major(a, b), 0)
  {
    if Major(a, b) > 0 { RoundStart(Major(a, b), Minor(a, b), HalfUp(a, b)); }
  }

  lemma BlendStep(a: Vec, b: Vec, pixels: seq<Vec>, p: Vec, d: int, j: int)
    requires Blending(a, b, pixels, p, d, j) && if Steep(a, b) then p.y != b.y else p.x != b.x
    ensures var sx, sy := Sign(b.x - a.x), Sign(b.y - a.y);
            var climb := d > 0 || (d == 0 && (if Steep(a, b) then sy else sx) == 1);
            && |pixels| < Major(a, b)
            && Blending(a, b, pixels + [p],
                        Vec(p.x + (if climb || !Steep(a, b) then sx else 0),
                          p.y + (if climb || Steep(a, b) then sy else 0)),
                        d + 2 * Minor(a, b) - (if climb then 2 * Major(a, b) else 0), if climb then j + 1 else j)
  {
    hide Rounded, Along, Sign;
    var k := |pixels|;
    AlongEnd(a, b, k, j);
    AlongSteps(a, b, k, j);
    UpSign(a, b);
    if k < Major(a, b) { RoundStep(k, Major(a, b), Minor(a, b), HalfUp(a, b), j); }
    MulNext(k, Minor(a, b));
    MulNext(j, Major(a, b));
  }

  lemma UpSign(a: Vec, b: Vec)
    ensures HalfUp(a, b) <==> (if Steep(a, b) then Sign(b.y - a.y) else Sign(b.x - a.x)) == 1
  {}

  lemma BlendEnd(a: Vec, b: Vec, pixels: seq<Vec>, p: Vec, d: int, j: int)
    requires Blending(a, b, pixels, p, d, j) && if Steep(a, b) then p.y == b.y else p.x == b.x
    ensures |pixels| == Major(a, b)
    ensures forall k :: 0 <= k <= |pixels| ==> (pixels + [p])[k] == BlendPoint(a, b, k)
  {
    hide Rounded, Along;
    AlongEnd(a, b, |pixels|, j);
  }

  /** The pixels of the blending loops. */
  method BlendLine(a: Vec, b: Vec) returns (pixels: seq<Vec>)
    ensures |pixels| == Major(a, b) + 1
    ensures forall k :: 0 <= k < |pixels| ==> pixels[k] == BlendPoint(a, b, k)
  {
    hide Blending, BlendPoint, Sign;
    var dx, dy := b.x - a.x, b.y - a.y;
    var sx, sy := Sign(dx), Sign(dy);
    var ax, ay := 2 * Abs(dx), 2 * Abs(dy);
    var x, y := a.x, a.y;
    pixels := [];
    ghost var j := 0;
    BlendStart(a, b);
    if ax > ay {
      var d := ay - ax / 2;
      while x != b.x
        invariant Blending(a, b, pixels, Vec(x, y), d, j)
        decreases Major(a, b) - |pixels|
      {
        BlendStep(a, b, pixels, Vec(x, y), d, j);
        pixels := pixels + [Vec(x, y)];
        if d > 0 || (d == 0 && sx == 1) {
          y := y + sy;
          d := d - ax;
          j := j + 1;
        }
        x := x + sx;
        d := d + ay;
      }
      BlendEnd(a, b, pixels, Vec(x, y), d, j);
    } else {
      var d := ax - ay / 2;
      while y != b.y
        invariant Blending(a, b, pixels, Vec(x, y), d, j)
        decreases Major(a, b) - |pixels|
      {
        BlendStep(a, b, pixels, Vec(x, y), d, j);
        pixels := pixels + [Vec(x, y)];
        if d > 0 || (d == 0 && sy == 1) {
          x := x + sx;
          d := d - ay;
          j := j + 1;
        }
        y := y + sy;
        d := d + ax;
      }
      BlendEnd(a, b, pixels, Vec(x, y), d, j);
    }
    pixels := pixels + [Vec(x, y)];
  }

  lemma RoundStart(major: nat, minor: nat, up: bool)
    requires minor <= major && major > 0
    ensures Rounded(0, major, minor, up) == 0
  {
    RoundedIs(0, major, minor, up, 0);
  }

  /** The sign of the decision variable tells whether the next column climbs. */
  lemma RoundStep(k: nat, major: nat, minor: nat, up: bool, j: int)
    requires minor <= major && major > 0 && j == Rounded(k, major, minor, up)
    ensures var d := 2 * (k * minor) + 2 * minor - major - 2 * (j * major);
            Rounded(k + 1, major, minor, up) == if d > 0 || (d == 0 && up) then j + 1 else j
  {
    hide Rounded;
    var d := 2 * (k * minor) + 2 * minor - major - 2 * (j * major);
    var next := if d > 0 || (d == 0 && up) then j + 1 else j;
    RoundedIs(k, major, minor, up, j);
    RoundedIs(k + 1, major, minor, up, next);
    MulNext(k, minor);
    MulNext(j, major);
  }

  lemma MulNext(k: int, m: int)
    ensures (k + 1) * m == k * m + m
  {}

  lemma AlongSteps(a: Vec, b: Vec, k: int, j: int)
    ensures var v := Minus(b, a);
            var p, q, r := Along(a, b, k, j), Along(a, b, k + 1, j), Along(a, b, k + 1, j + 1);
            if Abs(v.x) < Abs(v.y) then q == Vec(p.x, p.y + Sign(v.y)) && r == Vec(p.x + Sign(v.x), p.y + Sign(v.y))
            else q == Vec(p.x + Sign(v.x), p.y) && r == Vec(p.x + Sign(v.x), p.y + Sign(v.y))
  {}

  /** Which axis is complete when. */
  lemma AlongEnd(a: Vec, b: Vec, k: int, j: int)
    requires 0 <= k <= Major(a, b)
    ensures var v := Minus(b, a);
            if Abs(v.x) < Abs(v.y) then Along(a, b, k, j).y == b.y <==> k == Major(a, b)
            else Along(a, b, k, j).x == b.x <==> k == Major(a, b)
    ensures Abs(b.x - a.x) == Abs(b.y - a.y) && j == k ==> (Along(a, b, k, j).y == b.y <==> k == Major(a, b))
  {}

  function BlendPixels(a: Vec, b: Vec): seq<Vec> { seq(Major(a, b) + 1, k requires 0 <= k => BlendPoint(a, b, k)) }

  /** The blended line joins its ends through touching pixels, each the nearest one to the ideal line. */
  lemma BlendShape(a: Vec, b: Vec)
    requires a != b
    ensures IsLine(a, b, BlendPixels(a, b), 1, 2)
  {
    hide Along, Rounded, IsLine;
    var n, m, up := Major(a, b), Minor(a, b), HalfUp(a, b);
    var js := seq(n + 1, k requires 0 <= k => Rounded(k, n, m, up));
    assert GoodClimbs(js, n, m, 1, 2) by {
      RoundStart(n, m, up);
      RoundedIs(n, n, m, up, m);
      forall k | 0 <= k <= n
        ensures 0 <= js[k] <= m && Abs(k * m - js[k] * n) * 2 <= 1 * n
      {
        RoundedIs(k, n, m, up, js[k]);
        RoundedBounds(k, n, m, js[k]);
      }
      forall k | 1 <= k <= n
        ensures js[k - 1] <= js[k] <= js[k - 1] + 1
      {
        RoundStep(k - 1, n, m, up, js[k - 1]);
      }
    }
    GoodLine(a, b, js, 1, 2);
    assert BlendPixels(a, b) == seq(|js|, k requires 0 <= k < |js| => Along(a, b, k, js[k]));
  }

  lemma RoundedBounds(k: int, major: int, minor: int, j: int)
    requires 0 <= k && 0 <= minor && minor <= major && k <= major && major > 0 &&
             -major <= 2 * (j * major) - 2 * (k * minor) <= major
    ensures 0 <= j <= minor
  {
    MulOrder(k, major, minor);
    MulOrder(0, k, minor);
    Doubled(j, major);
    Doubled(minor, major);
    Between(j, minor, 2 * major, 2 * (k * minor), major);
  }

  lemma Doubled(j: int, n: int)
    ensures j * (2 * n) == 2 * (j * n) == 2 * (n * j)
  {}

  /** A multiple of n that is less than n away from something between 0 and m * n is one of 0, n, ..., m * n. */
  lemma Between(j: int, m: int, n: int, x: int, t: int)
    requires 0 <= t < n && 0 <= x <= m * n && -t <= j * n - x <= t
    ensures 0 <= j <= m
  {
    Quotient(j, 0, n);
    Quotient(j, m, n);
  }

  /** Drawn from either end, the blended line has the same pixels. */
  lemma BlendEitherEnd(a: Vec, b: Vec, k: nat)
    requires a.x != b.x && a.y != b.y && k <= Major(a, b)
    ensures Major(b, a) == Major(a, b)
    ensures BlendPixels(b, a)[Major(a, b) - k] == BlendPixels(a, b)[k]
  {
    hide Rounded, Along;
    var n, m, up := Major(a, b), Minor(a, b), HalfUp(a, b);
    var j := Rounded(k, n, m, up);
    assert HalfUp(b, a) == !up;
    RoundedReversed(k, n, m, up);
    AlongReversed(a, b, k, j);
  }

  lemma AlongReversed(a: Vec, b: Vec, k: int, j: int)
    requires a.x != b.x && a.y != b.y
    ensures Along(b, a, Major(a, b) - k, Minor(a, b) - j) == Along(a, b, k, j)
  {}

  lemma RoundedReversed(k: int, major: nat, minor: nat, up: bool)
    requires major > 0
    ensures Rounded(major - k, major, minor, !up) == minor - Rounded(k, major, minor, up)
  {
    hide Rounded;
    var j := Rounded(k, major, minor, up);
    RoundedIs(k, major, minor, up, j);
    RoundedIs(major - k, major, minor, !up, minor - j);
    assert (major - k) * minor == major * minor - k * minor;
    assert (minor - j) * major == major * minor - j * major;
  }

  // ----- The opaque line drawn from either end

  /** Drawn from either end, the opaque line has the same pixels. */
  ghost predicate SameBackwards(a: Vec, b: Vec)
    requires Major(b, a) == Major(a, b)
  {
    forall k :: 0 <= k <= Major(a, b) ==> OpaquePoint(b, a, Major(a, b) - k) == OpaquePoint(a, b, k)
  }

  /** Column k climbs alike from both ends exactly when its remainder leaves room for another climb. */
  lemma ClimbBackwards(k: nat, major: nat, minor: nat)
    requires minor <= major && k <= major
    ensures Climb(major - k, major, minor) == minor - Climb(k, major, minor) <==>
            (k * (minor + 1)) % (major + 1) + minor + 1 <= major + 1
  {
    var n, p := major + 1, minor + 1;
    var j, r := Climb(k, major, minor), (k * p) % n;
    assert k * p == j * n + r;
    assert (major - k) * p == n * p - p - k * p by { assert (n - 1 - k) * p == n * p - p - k * p; }
    if r + p <= n {
      assert (minor - j) * n == n * p - n - j * n;
      ModUnique((major - k) * p, n, minor - j, n - p - r);
    } else {
      assert (minor - j - 1) * n == n * p - 2 * n - j * n;
      ModUnique((major - k) * p, n, minor - j - 1, 2 * n - p - r);
    }
  }

  lemma AlongApart(a: Vec, b: Vec, k: int, j: int, i: int)
    requires a.x != b.x && a.y != b.y
    ensures Along(b, a, Major(a, b) - k, i) == Along(a, b, k, j) <==> i == Minor(a, b) - j
  {}

  /** A multiple of p leaves room for another p below n, if p divides n. */
  lemma RoomBelow(k: nat, p: nat, n: nat)
    requires 0 < p <= n && n % p == 0
    ensures (k * p) % n + p <= n
  {
    var q, c := n / p, (k * p) / n;
    assert n == q * p;
    assert (k * p) % n == (k - c * q) * p by { assert c * n == (c * q) * p; assert k * p == c * n + (k * p) % n; }
    Quotient(q, k - c * q, p);
    assert (q - 1) * p == q * p - p;
    MulOrder(k - c * q, q - 1, p);
  }

  /** The last multiple of p below n leaves none, if p does not divide n. */
  lemma NoRoomBelow(p: nat, n: nat)
    requires 0 < p <= n && n % p != 0
    ensures n / p < n && ((n / p) * p) % n + p > n
  {
    var k := n / p;
    assert n == k * p + n % p;
    assert k * p >= k by { MulOrder(1, p, k); }
    ModUnique(k * p, n, 0, k * p);
  }

  /** The opaque line does not depend on the end it is drawn from exactly when minor + 1 divides major + 1. */
  lemma OpaqueEitherEnd(a: Vec, b: Vec)
    requires a.x != b.x && a.y != b.y
    ensures Major(b, a) == Major(a, b)
    ensures SameBackwards(a, b) <==> (Major(a, b) + 1) % (Minor(a, b) + 1) == 0
  {
    hide Along, Climb;
    var n, m := Major(a, b), Minor(a, b);
    assert Major(b, a) == n && Minor(b, a) == m <= n;
    hide Major, Minor;
    forall k | 0 <= k <= n
      ensures OpaquePoint(b, a, n - k) == OpaquePoint(a, b, k) <==> (k * (m + 1)) % (n + 1) + m + 1 <= n + 1
    {
      AlongApart(a, b, k, Climb(k, n, m), Climb(n - k, n, m));
      ClimbBackwards(k, n, m);
    }
    if (n + 1) % (m + 1) == 0 {
      forall k | 0 <= k <= n ensures OpaquePoint(b, a, n - k) == OpaquePoint(a, b, k) { RoomBelow(k, m + 1, n + 1); }
    } else {
      NoRoomBelow(m + 1, n + 1);
      assert OpaquePoint(b, a, n - (n + 1) / (m + 1)) != OpaquePoint(a, b, (n + 1) / (m + 1));
    }
  }

  /** From (0, 0) to (2, 1) and back it differs in the middle. */
  lemma OpaqueOneWay()
    ensures OpaquePoint(Vec(0, 0), Vec(2, 1), 1) == Vec(1, 0)
    ensures OpaquePoint(Vec(2, 1), Vec(0, 0), 1) == Vec(1, 1)
  {
    hide Climb;
    ClimbIs(1, 2, 1, 0);
  }
}
