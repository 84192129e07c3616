/** filledPolygonColor: the scanline fill against the even-odd rule. Positions along a row are in 1/65536 pixel. */
module Fill {
  import opened Torus

  const SUB := 65536

  /** A row segment handed to the row drawing routine, which accepts its ends in either order. */
  datatype Span = Span(xa: int, xb: int, y: int)

  predicate Paints(s: Span, x: int, y: int) { y == s.y && (s.xa <= x <= s.xb || s.xb <= x <= s.xa) }

  // ----- Arithmetic

  /** Division as in C: the fraction is dropped. */
  function TruncDiv(n: int, d: int): int
    requires d > 0
  {
    if n >= 0 then n / d else -((-n) / d)
  }

  /** The nearest pixel, computed from the whole part and the top bit of the fraction. */
  function NearestPixel(v: int): int { v / SUB + (v / 32768) % 2 }

  lemma NearestPixelIs(v: int, x: int)
    ensures NearestPixel(v) == (v + 32768) / SUB
    ensures NearestPixel(v) <= x <==> v < SUB * x + 32768
    ensures x <= NearestPixel(v) <==> SUB * x - 32768 <= v
  {
    assert v == (v / SUB) * SUB + v % SUB;
    if v % SUB < 32768 {
      ModUnique(v, 32768, 2 * (v / SUB), v % SUB);
      ModUnique(v + 32768, SUB, v / SUB, v % SUB + 32768);
    } else {
      ModUnique(v, 32768, 2 * (v / SUB) + 1, v % SUB - 32768);
      ModUnique(v + 32768, SUB, v / SUB + 1, v % SUB - 32768);
    }
  }

  lemma TruncRemainder(n: int, d: int)
    requires d > 0
    ensures if n >= 0 then 0 <= n - TruncDiv(n, d) * d < d else -d < n - TruncDiv(n, d) * d <= 0
  {
    var m := if n >= 0 then n else -n;
    assert m == (m / d) * d + m % d;
    assert (-(m / d)) * d == -((m / d) * d);
  }

  lemma MulLess(q: int, t: int, d: int)
    requires d > 0 && q < t
    ensures q * d + d <= t * d
  {
    assert (q + 1) * d == q * d + d;
    assert (q + 1) * d <= t * d;
  }

  /** Dropping the fraction does not carry a quotient across a whole number t, unless onto it. */
  lemma TruncSide(n: int, d: int, t: int)
    requires d > 0 && TruncDiv(n, d) != t
    ensures TruncDiv(n, d) < t <==> n < t * d
  {
    hide TruncDiv;
    var q := TruncDiv(n, d);
    TruncRemainder(n, d);
    if q < t { MulLess(q, t, d); } else { MulLess(t, q, d); }
  }

  /** A truncated share of a stretch s stays within it. */
  lemma TruncBetween(s: int, part: int, d: int)
    requires 0 <= part <= d && d > 0
    ensures if s >= 0 then 0 <= TruncDiv(part * s, d) <= s else s <= TruncDiv(part * s, d) <= 0
  {
    hide TruncDiv;
    var q := TruncDiv(part * s, d);
    TruncRemainder(part * s, d);
    if s >= 0 {
      assert 0 <= part * s <= d * s;
      if q < 0 { MulLess(q, 0, d); }
      if s < q { MulLess(s, q, d); }
    } else {
      assert d * s <= part * s <= 0;
      if q < s { MulLess(q, s, d); }
      if 0 < q { MulLess(0, q, d); }
    }
  }

  // ----- Edges and rows

  function Prev(n: nat, i: nat): nat
    requires i < n
  {
    if i == 0 then n - 1 else i - 1
  }

  function Upper(a: Vec, b: Vec): Vec { if a.y < b.y then a else b }

  function Lower(a: Vec, b: Vec): Vec { if a.y < b.y then b else a }

  /** Row y meets the edge: half open at its lower end, except on the last row, where it is half open above. */
  predicate Meets(a: Vec, b: Vec, y: int, maxy: int) {
    var p, q := Upper(a, b), Lower(a, b);
    p.y != q.y && ((y >= p.y && y < q.y) || (y == maxy && y > p.y && y <= q.y))
  }

  /** Where it meets it, to the sub-pixel, the fraction dropped. */
  function Hit(a: Vec, b: Vec, y: int): int
    requires a.y != b.y
  {
    var p, q := Upper(a, b), Lower(a, b);
    TruncDiv(SUB * (y - p.y) * (q.x - p.x), q.y - p.y) + SUB * p.x
  }

  /** The exact intersection of edge and row lies left of sub-pixel position x. */
  predicate LeftOf(a: Vec, b: Vec, y: int, x: int) {
    var p, q := Upper(a, b), Lower(a, b);
    SUB * (y - p.y) * (q.x - p.x) < (x - SUB * p.x) * (q.y - p.y)
  }

  lemma HitSide(a: Vec, b: Vec, y: int, x: int)
    requires a.y != b.y && Hit(a, b, y) != x
    ensures Hit(a, b, y) < x <==> LeftOf(a, b, y, x)
  {
    var p, q := Upper(a, b), Lower(a, b);
    TruncSide(SUB * (y - p.y) * (q.x - p.x), q.y - p.y, x - SUB * p.x);
  }

  /** On which side of row y a vertex counts. */
  predicate Above(v: Vec, y: int, maxy: int) { if y == maxy then v.y < maxy else v.y <= y }

  predicate Bottom(vs: seq<Vec>, maxy: int) {
    (forall v :: v in vs ==> v.y <= maxy) && exists v :: v in vs && v.y == maxy
  }

  /** Hits of the first k edges; edge i runs from the vertex before i to vertex i. */
  function HitsTo(vs: seq<Vec>, y: int, maxy: int, k: nat): (hits: seq<int>)
    requires k <= |vs|
    ensures |hits| <= k
  {
    if k == 0 then [] else
    var a, b := vs[Prev(|vs|, k - 1)], vs[k - 1];
    HitsTo(vs, y, maxy, k - 1) + if Meets(a, b, y, maxy) then [Hit(a, b, y)] else []
  }

  lemma {:induction false} ParityTo(vs: seq<Vec>, y: int, maxy: int, k: nat)
    requires 0 < k <= |vs| && y <= maxy && Bottom(vs, maxy)
    ensures |HitsTo(vs, y, maxy, k)| % 2 == if Above(vs[|vs| - 1], y, maxy) == Above(vs[k - 1], y, maxy) then 0 else 1
  {
    var a, b := vs[Prev(|vs|, k - 1)], vs[k - 1];
    assert a in vs && b in vs;
    assert Meets(a, b, y, maxy) <==> Above(a, y, maxy) != Above(b, y, maxy);
    if k > 1 { ParityTo(vs, y, maxy, k - 1); }
  }

  /** Every row has an even number of hits, the last one too. */
  lemma EvenHits(vs: seq<Vec>, y: int, maxy: int)
    requires y <= maxy && Bottom(vs, maxy)
    ensures |HitsTo(vs, y, maxy, |vs|)| % 2 == 0
  {
    ParityTo(vs, y, maxy, |vs|);
  }

  // ----- The even-odd rule

  /** Edges among the first k whose exact intersection with row y is left of x. */
  function CrossingsTo(vs: seq<Vec>, y: int, maxy: int, x: int, k: nat): nat
    requires k <= |vs|
  {
    if k == 0 then 0 else
    var a, b := vs[Prev(|vs|, k - 1)], vs[k - 1];
    CrossingsTo(vs, y, maxy, x, k - 1) + if Meets(a, b, y, maxy) && LeftOf(a, b, y, x) then 1 else 0
  }

  predicate Inside(vs: seq<Vec>, y: int, maxy: int, x: int) { CrossingsTo(vs, y, maxy, x, |vs|) % 2 == 1 }

  function CountBelow(s: seq<int>, x: int): nat {
    if s == [] then 0 else CountBelow(s[..|s| - 1], x) + if s[|s| - 1] < x then 1 else 0
  }

  lemma {:induction false} HitsCountCrossings(vs: seq<Vec>, y: int, maxy: int, x: int, k: nat)
    requires k <= |vs| && x !in HitsTo(vs, y, maxy, k)
    ensures CountBelow(HitsTo(vs, y, maxy, k), x) == CrossingsTo(vs, y, maxy, x, k)
  {
    hide LeftOf, Hit;
    if k > 0 {
      var a, b := vs[Prev(|vs|, k - 1)], vs[k - 1];
      assert Meets(a, b, y, maxy) ==> a.y != b.y;
      hide Meets;
      var before, all := HitsTo(vs, y, maxy, k - 1), HitsTo(vs, y, maxy, k);
      assert forall i :: 0 <= i < |before| ==> before[i] == all[i];
      HitsCountCrossings(vs, y, maxy, x, k - 1);
      if Meets(a, b, y, maxy) {
        assert all[|all| - 1] == Hit(a, b, y) && all[..|all| - 1] == before;
        HitSide(a, b, y, x);
      } else {
        assert all == before;
      }
    }
  }

  // ----- Sorting

  predicate Ascending(s: seq<int>) { forall i, j :: 0 <= i < j < |s| ==> s[i] <= s[j] }

  function Insert(s: seq<int>, x: int): (r: seq<int>)
    requires Ascending(s)
    ensures Ascending(r) && |r| == |s| + 1
    ensures forall i :: 0 <= i < |r| ==> r[i] == x || r[i] in s
  {
    if s == [] || s[|s| - 1] <= x then s + [x] else Insert(s[..|s| - 1], x) + [s[|s| - 1]]
  }

  function Sorted(s: seq<int>): (r: seq<int>)
    ensures Ascending(r) && |r| == |s|
  {
    if s == [] then [] else
    Insert(Sorted(s[..|s| - 1]), s[|s| - 1])
  }

  lemma {:induction false} InsertKeeps(s: seq<int>, x: int)
    requires Ascending(s)
    ensures multiset(Insert(s, x)) == multiset(s) + multiset{x}
  {
    if !(s == [] || s[|s| - 1] <= x) {
      InsertKeeps(s[..|s| - 1], x);
      assert s == s[..|s| - 1] + [s[|s| - 1]];
    }
  }

  /** Sorting only rearranges. */
  lemma {:induction false} SortedKeeps(s: seq<int>)
    ensures multiset(Sorted(s)) == multiset(s)
  {
    if s != [] {
      SortedKeeps(s[..|s| - 1]);
      InsertKeeps(Sorted(s[..|s| - 1]), s[|s| - 1]);
      assert s == s[..|s| - 1] + [s[|s| - 1]];
    }
  }

  lemma {:induction false} InsertCount(s: seq<int>, x: int, y: int)
    requires Ascending(s)
    ensures CountBelow(Insert(s, x), y) == CountBelow(s, y) + if x < y then 1 else 0
  {
    var r := Insert(s, x);
    if s == [] || s[|s| - 1] <= x {
      assert r[..|r| - 1] == s;
    } else {
      InsertCount(s[..|s| - 1], x, y);
      assert r[..|r| - 1] == Insert(s[..|s| - 1], x);
    }
  }

  lemma {:induction false} SortedCount(s: seq<int>, y: int)
    ensures CountBelow(Sorted(s), y) == CountBelow(s, y)
  {
    if s != [] {
      SortedCount(s[..|s| - 1], y);
      InsertCount(Sorted(s[..|s| - 1]), s[|s| - 1], y);
    }
  }

  /** In ascending order the elements below y come first. */
  lemma {:induction false} BelowFirst(s: seq<int>, y: int)
    requires Ascending(s)
    ensures CountBelow(s, y) <= |s|
    ensures forall i :: 0 <= i < |s| ==> (s[i] < y <==> i < CountBelow(s, y))
  {
    if s != [] {
      BelowFirst(s[..|s| - 1], y);
      assert forall i :: 0 <= i < |s| - 1 ==> s[..|s| - 1][i] == s[i];
      assert s[|s| - 1] < y ==> CountBelow(s[..|s| - 1], y) == |s| - 1;
    }
  }

  // ----- Spans

  function SpanOf(h0: int, h1: int, y: int): Span { Span(NearestPixel(h0 + 1), NearestPixel(h1 - 1), y) }

  function Pairs(hits: seq<int>, y: int, k: nat): (spans: seq<Span>)
    requires 2 * k <= |hits|
    ensures |spans| == k
    ensures forall i :: 0 <= i < k ==> spans[i] == SpanOf(hits[2 * i], hits[2 * i + 1], y)
  {
    if k == 0 then [] else Pairs(hits, y, k - 1) + [SpanOf(hits[2 * k - 2], hits[2 * k - 1], y)]
  }

  function RowHits(vs: seq<Vec>, y: int, maxy: int): seq<int> { Sorted(HitsTo(vs, y, maxy, |vs|)) }

  function RowSpans(vs: seq<Vec>, y: int, maxy: int): seq<Span> {
    var hits := RowHits(vs, y, maxy);
    Pairs(hits, y, |hits| / 2)
  }

  function SpansTo(vs: seq<Vec>, miny: int, maxy: int, y: int): seq<Span>
    requires miny <= y
    decreases y - miny
  {
    if y == miny then [] else SpansTo(vs, miny, maxy, y - 1) + RowSpans(vs, y - 1, maxy)
  }

  function MinY(vs: seq<Vec>): (m: int)
    requires vs != []
    ensures forall v :: v in vs ==> m <= v.y
    ensures exists v :: v in vs && v.y == m
  {
    if |vs| == 1 then assert vs[0] in vs; vs[0].y else
    var m, v := MinY(vs[..|vs| - 1]), vs[|vs| - 1];
    assert forall u :: u in vs ==> u in vs[..|vs| - 1] || u == v;
    assert v in vs;
    if v.y < m then v.y else m
  }

  function MaxY(vs: seq<Vec>): (m: int)
    requires vs != []
    ensures Bottom(vs, m)
  {
    if |vs| == 1 then assert vs[0] in vs; vs[0].y else
    var m, v := MaxY(vs[..|vs| - 1]), vs[|vs| - 1];
    assert forall u :: u in vs ==> u in vs[..|vs| - 1] || u == v;
    assert v in vs;
    if v.y > m then v.y else m
  }

  function Spans(vs: seq<Vec>): seq<Span>
    requires vs != []
  {
    SpansTo(vs, MinY(vs), MaxY(vs), MaxY(vs) + 1)
  }

  lemma RowSpanAt(vs: seq<Vec>, y: int, maxy: int, s: Span) returns (i: nat)
    requires s in RowSpans(vs, y, maxy)
    ensures 2 * i + 1 < |RowHits(vs, y, maxy)|
    ensures s == SpanOf(RowHits(vs, y, maxy)[2 * i], RowHits(vs, y, maxy)[2 * i + 1], y) && s.y == y
  {
    hide RowHits;
    i :| 0 <= i < |RowSpans(vs, y, maxy)| && RowSpans(vs, y, maxy)[i] == s;
  }

  lemma {:induction false} SpansHas(vs: seq<Vec>, miny: int, maxy: int, y: int, s: Span)
    requires miny <= y
    ensures s in SpansTo(vs, miny, maxy, y) <==> miny <= s.y < y && s in RowSpans(vs, s.y, maxy)
    decreases y - miny
  {
    hide RowSpans;
    if y > miny {
      SpansHas(vs, miny, maxy, y - 1, s);
      if s in RowSpans(vs, y - 1, maxy) { var _ := RowSpanAt(vs, y - 1, maxy, s); }
    }
  }

  lemma {:induction false} NoCrossings(vs: seq<Vec>, y: int, maxy: int, x: int, k: nat)
    requires k <= |vs| && vs != [] && Bottom(vs, maxy) && !(MinY(vs) <= y <= maxy)
    ensures CrossingsTo(vs, y, maxy, x, k) == 0
  {
    if k > 0 {
      NoCrossings(vs, y, maxy, x, k - 1);
      assert vs[Prev(|vs|, k - 1)] in vs && vs[k - 1] in vs;
    }
  }

  lemma InHits(vs: seq<Vec>, y: int, maxy: int, x: int)
    ensures x in RowHits(vs, y, maxy) <==> x in HitsTo(vs, y, maxy, |vs|)
  {
    hide HitsTo, Sorted;
    var hits := HitsTo(vs, y, maxy, |vs|);
    SortedKeeps(hits);
    assert x in multiset(hits) <==> x in hits;
    assert x in multiset(Sorted(hits)) <==> x in Sorted(hits);
  }

  /** Left of position x, off the hits, lie as many sorted hits as exact crossings. */
  lemma RowParity(vs: seq<Vec>, y: int, maxy: int, x: int)
    requires x !in RowHits(vs, y, maxy)
    ensures var hits := RowHits(vs, y, maxy); var c := CrossingsTo(vs, y, maxy, x, |vs|);
            Ascending(hits) && c <= |hits| && forall i :: 0 <= i < |hits| ==> (hits[i] < x <==> i < c)
  {
    InHits(vs, y, maxy, x);
    HitsCountCrossings(vs, y, maxy, x, |vs|);
    SortedCount(HitsTo(vs, y, maxy, |vs|), x);
    BelowFirst(RowHits(vs, y, maxy), x);
  }

  /** A span paints every pixel whose centre lies between its hits or on one of them, and little more. */
  lemma SpanPaints(h0: int, h1: int, y: int, x: int)
    requires h0 <= h1
    ensures h0 <= SUB * x <= h1 ==> Paints(SpanOf(h0, h1, y), x, y)
    ensures Paints(SpanOf(h0, h1, y), x, y) ==> h0 - 32769 <= SUB * x <= h1 + 32769
  {
    hide NearestPixel;
    NearestPixelIs(h0 + 1, x);
    NearestPixelIs(h1 - 1, x);
  }

  /** Every pixel whose centre is inside the polygon by the even-odd rule is painted. */
  lemma FillsInside(vs: seq<Vec>, x: int, y: int)
    requires vs != [] && Inside(vs, y, MaxY(vs), SUB * x)
    ensures exists s :: s in Spans(vs) && Paints(s, x, y)
  {
    hide RowHits, Inside, SpanOf, MinY;
    var maxy := MaxY(vs);
    var hits, c := RowHits(vs, y, maxy), CrossingsTo(vs, y, maxy, SUB * x, |vs|);
    assert c % 2 == 1 by { InsideOdd(vs, y, maxy, SUB * x); }
    if !(MinY(vs) <= y <= maxy) { NoCrossings(vs, y, maxy, SUB * x, |vs|); }
    EvenRow(vs, y, maxy);
    var i := HitSpan(vs, y, maxy, SUB * x);
    SpanPaints(hits[2 * i], hits[2 * i + 1], y, x);
    var s := RowSpans(vs, y, maxy)[i];
    SpansHas(vs, MinY(vs), maxy, maxy + 1, s);
  }

  lemma InsideOdd(vs: seq<Vec>, y: int, maxy: int, x: int)
    ensures Inside(vs, y, maxy, x) <==> CrossingsTo(vs, y, maxy, x, |vs|) % 2 == 1
  {}

  lemma EvenRow(vs: seq<Vec>, y: int, maxy: int)
    requires y <= maxy && Bottom(vs, maxy)
    ensures |RowHits(vs, y, maxy)| % 2 == 0 && |RowHits(vs, y, maxy)| <= |vs|
  {
    EvenHits(vs, y, maxy);
  }

  /** An inside position lies between the hits of some span. */
  lemma HitSpan(vs: seq<Vec>, y: int, maxy: int, x: int) returns (i: nat)
    requires |RowHits(vs, y, maxy)| % 2 == 0 && (x in RowHits(vs, y, maxy) || Inside(vs, y, maxy, x))
    ensures 2 * i + 1 < |RowHits(vs, y, maxy)|
    ensures RowHits(vs, y, maxy)[2 * i] <= x <= RowHits(vs, y, maxy)[2 * i + 1]
  {
    hide RowHits;
    var hits := RowHits(vs, y, maxy);
    assert Ascending(hits) by { RowAscends(vs, y, maxy); }
    if x in hits {
      var j :| 0 <= j < |hits| && hits[j] == x;
      i := j / 2;
    } else {
      RowParity(vs, y, maxy, x);
      i := CrossingsTo(vs, y, maxy, x, |vs|) / 2;
    }
  }

  lemma RowAscends(vs: seq<Vec>, y: int, maxy: int)
    ensures Ascending(RowHits(vs, y, maxy))
  {}

  /** A position touches the polygon when it is a hit or inside. */
  predicate Touches(vs: seq<Vec>, y: int, maxy: int, x: int) {
    x in HitsTo(vs, y, maxy, |vs|) || Inside(vs, y, maxy, x)
  }

  /** Every painted pixel has a point touching the polygon within half a pixel (and 1/65536) of its centre. */
  lemma FillsNear(vs: seq<Vec>, x: int, y: int, s: Span)
    requires vs != [] && s in Spans(vs) && Paints(s, x, y)
    ensures MinY(vs) <= y <= MaxY(vs)
    ensures exists p :: Touches(vs, y, MaxY(vs), p) && -32769 <= p - SUB * x <= 32769
  {
    hide RowHits, RowSpans, Touches, SpanOf, MinY, HitsTo;
    var maxy := MaxY(vs);
    SpansHas(vs, MinY(vs), maxy, maxy + 1, s);
    EvenRow(vs, y, maxy);
    RowAscends(vs, y, maxy);
    var hits := RowHits(vs, y, maxy);
    var i := RowSpanAt(vs, y, maxy, s);
    var h0, h1 := hits[2 * i], hits[2 * i + 1];
    SpanPaints(h0, h1, y, x);
    var p := if SUB * x < h0 then h0 else if SUB * x > h1 then h1 else SUB * x;
    SpanTouches(vs, y, maxy, i, p);
  }

  /** Whatever lies between the two hits of a span touches the polygon. */
  lemma SpanTouches(vs: seq<Vec>, y: int, maxy: int, i: nat, p: int)
    requires 2 * i + 1 < |RowHits(vs, y, maxy)|
    requires RowHits(vs, y, maxy)[2 * i] <= p <= RowHits(vs, y, maxy)[2 * i + 1]
    ensures Touches(vs, y, maxy, p)
  {
    hide RowHits, Inside;
    InHits(vs, y, maxy, p);
    if p !in RowHits(vs, y, maxy) {
      RowParity(vs, y, maxy, p);
      InsideOdd(vs, y, maxy, p);
    }
  }

  lemma {:induction false} HitsBetween(vs: seq<Vec>, y: int, maxy: int, left: int, right: int, k: nat)
    requires k <= |vs| && forall v :: v in vs ==> left <= v.x <= right
    ensures forall h :: h in HitsTo(vs, y, maxy, k) ==> SUB * left <= h <= SUB * right
  {
    if k > 0 {
      HitsBetween(vs, y, maxy, left, right, k - 1);
      var a, b := vs[Prev(|vs|, k - 1)], vs[k - 1];
      assert a in vs && b in vs;
      if Meets(a, b, y, maxy) {
        var p, q := Upper(a, b), Lower(a, b);
        assert SUB * (y - p.y) * (q.x - p.x) == (y - p.y) * (SUB * (q.x - p.x));
        TruncBetween(SUB * (q.x - p.x), y - p.y, q.y - p.y);
      }
    }
  }

  /** No span leaves the bounding box. */
  lemma FillsInBox(vs: seq<Vec>, left: int, right: int, s: Span)
    requires vs != [] && s in Spans(vs) && forall v :: v in vs ==> left <= v.x <= right
    ensures MinY(vs) <= s.y <= MaxY(vs) && left <= s.xa <= right && left <= s.xb <= right
  {
    hide RowHits, RowSpans, MinY, HitsTo, NearestPixel;
    var maxy := MaxY(vs);
    SpansHas(vs, MinY(vs), maxy, maxy + 1, s);
    var hits := RowHits(vs, s.y, maxy);
    var i := RowSpanAt(vs, s.y, maxy, s);
    HitsBetween(vs, s.y, maxy, left, right, |vs|);
    InHits(vs, s.y, maxy, hits[2 * i]);
    InHits(vs, s.y, maxy, hits[2 * i + 1]);
    NearestPixelIs(hits[2 * i] + 1, left);
    NearestPixelIs(hits[2 * i] + 1, right);
    NearestPixelIs(hits[2 * i + 1] - 1, left);
    NearestPixelIs(hits[2 * i + 1] - 1, right);
  }

  lemma MinBelowMax(vs: seq<Vec>)
    requires vs != []
    ensures MinY(vs) <= MaxY(vs)
  {
    hide MinY, MaxY;
    assert vs[0] in vs;
  }

  lemma MaximaStep(vs: seq<Vec>, i: nat)
    requires i < |vs|
    ensures i == 0 ==> MinY(vs[..1]) == vs[0].y && MaxY(vs[..1]) == vs[0].y
    ensures i > 0 ==> MinY(vs[..i + 1]) == if vs[i].y < MinY(vs[..i]) then vs[i].y else MinY(vs[..i])
    ensures i > 0 ==> MaxY(vs[..i + 1]) == if vs[i].y > MaxY(vs[..i]) then vs[i].y else MaxY(vs[..i])
  {
    hide Bottom;
    assert vs[..i + 1][..i] == vs[..i];
  }

  // ----- The routine

  /** The routine and its static scratch array, which only grows. */
  class PolygonFiller {
    var ints: array<int>

    constructor ()
      ensures ints.Length == 0
    {
      ints := new int[0];
    }

    /** The spans of the filled polygon; fewer than three points are refused. */
    method FilledPolygon(vs: seq<Vec>) returns (res: int, spans: seq<Span>)
      modifies this, ints
      ensures if |vs| < 3 then res == -1 && spans == [] && ints == old(ints)
              else res == 0 && spans == Spans(vs)
      ensures ints.Length == if |vs| >= 3 && old(ints.Length) < |vs| then |vs| else old(ints.Length)
    {
      hide RowSpans, MinY, MaxY, Bottom;
      var n := |vs|;
      spans := [];
      if n < 3 {
        return -1, [];
      }
      if ints.Length < n {
        ints := new int[n];
      }
      var miny, maxy := FindMaxima(vs);
      MinBelowMax(vs);
      var y := miny;
      while y <= maxy
        invariant miny <= y <= maxy + 1
        invariant spans == SpansTo(vs, miny, maxy, y)
        modifies ints
      {
        var row := FillRow(vs, y, maxy);
        spans := spans + row;
        y := y + 1;
      }
      res := 0;
    }

    /** One scanline. */
    method FillRow(vs: seq<Vec>, y: int, maxy: int) returns (row: seq<Span>)
      requires ints.Length >= |vs| && y <= maxy && Bottom(vs, maxy)
      modifies ints
      ensures row == RowSpans(vs, y, maxy)
    {
      hide Sorted, HitsTo, Bottom;
      var count := ScanRow(vs, y, maxy);
      SortInts(count);
      EvenRow(vs, y, maxy);
      row := PairUp(count, y);
    }

    method FindMaxima(vs: seq<Vec>) returns (miny: int, maxy: int)
      requires vs != []
      ensures miny == MinY(vs) && maxy == MaxY(vs)
    {
      hide MinY, MaxY;
      miny, maxy := vs[0].y, vs[0].y;
      MaximaStep(vs, 0);
      for i := 1 to |vs|
        invariant miny == MinY(vs[..i]) && maxy == MaxY(vs[..i]) && miny <= maxy
      {
        MaximaStep(vs, i);
        if vs[i].y < miny {
          miny := vs[i].y;
        } else if vs[i].y > maxy {
          maxy := vs[i].y;
        }
      }
      assert vs[..|vs|] == vs;
    }

    /** Collects the hits of row y. */
    method ScanRow(vs: seq<Vec>, y: int, maxy: int) returns (count: nat)
      requires ints.Length >= |vs|
      modifies ints
      ensures count <= ints.Length && ints[..count] == HitsTo(vs, y, maxy, |vs|)
    {
      hide TruncDiv;
      count := 0;
      for i := 0 to |vs|
        invariant count <= i && ints[..count] == HitsTo(vs, y, maxy, i)
      {
        var ind1, ind2 := if i == 0 then |vs| - 1 else i - 1, i;
        var p, q := vs[ind1], vs[ind2];
        if p.y == q.y { continue; }
        if p.y > q.y { p, q := q, p; }
        if (y >= p.y && y < q.y) || (y == maxy && y > p.y && y <= q.y) {
          ints[count] := TruncDiv(SUB * (y - p.y) * (q.x - p.x), q.y - p.y) + SUB * p.x;
          count := count + 1;
        }
      }
    }

    /** Joins the sorted hits in pairs. */
    method PairUp(count: nat, y: int) returns (spans: seq<Span>)
      requires count <= ints.Length && count % 2 == 0
      ensures spans == Pairs(ints[..count], y, count / 2)
    {
      spans := [];
      var i := 0;
      while i < count
        invariant 0 <= i <= count && i % 2 == 0
        invariant spans == Pairs(ints[..count], y, i / 2)
      {
        var xa := ints[i] + 1;
        xa := xa / SUB + (xa / 32768) % 2;
        var xb := ints[i + 1] - 1;
        xb := xb / SUB + (xb / 32768) % 2;
        spans := spans + [Span(xa, xb, y)];
        i := i + 2;
      }
    }

    /** The library sort, by insertion. */
    method SortInts(count: nat)
      requires count <= ints.Length
      modifies ints
      ensures ints[..count] == Sorted(old(ints[..count]))
    {
      var s := Sorted(ints[..count]);
      for i := 0 to count
        invariant ints[..i] == s[..i]
      {
        ints[i] := s[i];
      }
    }
  }
}
