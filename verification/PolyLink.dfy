/** poly_link as a whole: sorting the outlines, choosing the offset function, linking and merging. */
module PolyLink {
  import opened Torus
  import opened Trace
  import opened Winding
  import opened ClosestPair
  import opened Tour
  import opened Polynodes
  import opened Spanning
  import opened Linking
  import opened TreeLinks

  /** The merged outline and whether it still has to be opened up; or a broken assertion about the mix; or the failure
      to take an outline from an empty list. */
  datatype Merged = Merged(recs: seq<Rec>, extrawrap: bool) | BadMix | NoOutlines

  /** Coordinates small enough for squared distances to stay below the source's 1e98. */
  const REACH: int := 1000000000000000000000000000000000000000000000000

  ghost predicate Bounded(poly: seq<Edge>) {
    forall i :: 0 <= i < |poly| ==> -REACH <= poly[i].pos.x <= REACH && -REACH <= poly[i].pos.y <= REACH
  }

  /** What poly_link may expect of each outline. */
  ghost predicate IsOutline(poly: seq<Edge>, width: int, height: int) {
    width > 0 && height > 0 && GoodOutline(poly, width, height) && Heads(poly) && Bounded(poly)
  }

  function Sign(turns: int): int { if turns > 0 then 1 else if turns < 0 then -1 else 0 }

  /** The outlines whose number of full turns has the given sign, in order. */
  ghost function OfSign(polys: seq<seq<Edge>>, sign: int): seq<seq<Edge>> {
    if polys == [] then []
    else
      var last := polys[|polys| - 1];
      OfSign(polys[..|polys| - 1], sign) + if Sign(FullTurns(last)) == sign then [last] else []
  }

  lemma {:induction false} OfSignMembers(polys: seq<seq<Edge>>, sign: int)
    ensures forall p :: p in OfSign(polys, sign) ==> p in polys
    decreases |polys|
  {
    if polys != [] {
      OfSignMembers(polys[..|polys| - 1], sign);
      assert forall p :: p in polys[..|polys| - 1] ==> p in polys;
      assert polys[|polys| - 1] in polys;
    }
  }

  lemma {:induction false} OfSignTurns(polys: seq<seq<Edge>>, sign: int)
    ensures forall p :: p in OfSign(polys, sign) ==> Sign(FullTurns(p)) == sign
    decreases |polys|
  {
    hide FullTurns;
    if polys != [] { OfSignTurns(polys[..|polys| - 1], sign); }
  }

  lemma {:induction false} OfSignCount(polys: seq<seq<Edge>>)
    ensures |OfSign(polys, -1)| + |OfSign(polys, 1)| + |OfSign(polys, 0)| == |polys|
    decreases |polys|
  {
    hide FullTurns;
    if polys != [] { OfSignCount(polys[..|polys| - 1]); }
  }

  /** The outline turns around to the left, to the right, or not at all. */
  ghost predicate TurnsTo(poly: seq<Edge>, sign: int) {
    if sign > 0 then FullTurns(poly) > 0 else if sign < 0 then FullTurns(poly) < 0 else FullTurns(poly) == 0
  }

  ghost function Turning(polys: seq<seq<Edge>>, sign: int): set<int> {
    set i | 0 <= i < |polys| && TurnsTo(polys[i], sign)
  }

  lemma {:induction false} SignIs(poly: seq<Edge>, sign: int)
    requires sign in {-1, 0, 1}
    ensures Sign(FullTurns(poly)) == sign <==> TurnsTo(poly, sign)
  {
    hide FullTurns;
  }

  lemma {:induction false} TurningLast(polys: seq<seq<Edge>>, sign: int)
    requires polys != []
    ensures var n := |polys| - 1; var less := Turning(polys[..n], sign);
            |Turning(polys, sign)| == |less| + if TurnsTo(polys[n], sign) then 1 else 0
  {
    hide TurnsTo;
    var n := |polys| - 1;
    var less, all := Turning(polys[..n], sign), Turning(polys, sign);
    assert forall i :: 0 <= i < n ==> polys[..n][i] == polys[i];
    if TurnsTo(polys[n], sign) {
      assert all == less + {n} && n !in less;
    } else {
      assert all == less;
    }
  }

  /** As many outlines are sorted under a sign as turn that way. */
  lemma {:induction false} OfSignCounts(polys: seq<seq<Edge>>, sign: int)
    requires sign in {-1, 0, 1}
    ensures |OfSign(polys, sign)| == |Turning(polys, sign)|
    decreases |polys|
  {
    hide FullTurns, TurnsTo, Turning;
    if polys == [] {
      assert Turning(polys, sign) == {} by { NoneTurning(sign); }
    } else {
      var n := |polys| - 1;
      OfSignCounts(polys[..n], sign);
      TurningLast(polys, sign);
      SignIs(polys[n], sign);
    }
  }

  lemma NoneTurning(sign: int)
    ensures Turning([], sign) == {}
  {}

  lemma {:induction false} OfSignSplits(polys: seq<seq<Edge>>, p: seq<Edge>)
    ensures multiset(OfSign(polys, Sign(FullTurns(p))))[p] == multiset(polys)[p]
    decreases |polys|
  {
    hide FullTurns;
    if polys != [] {
      var rest, last := polys[..|polys| - 1], polys[|polys| - 1];
      OfSignSplits(rest, p);
      assert polys == rest + [last];
      assert multiset(polys) == multiset(rest) + multiset{last};
    }
  }

  /** The order in which the outlines become nodes. */
  ghost function Sorted(polys: seq<seq<Edge>>): seq<seq<Edge>> {
    OfSign(polys, -1) + OfSign(polys, 1) + OfSign(polys, 0)
  }

  /** The node at which the tour starts: an outline that wraps if there are any, else one that turns left if there is
      one. */
  ghost predicate IsRoot(polys: seq<seq<Edge>>, root: seq<Edge>) {
    root in polys &&
    if exists p :: p in polys && FullTurns(p) == 0 then FullTurns(root) == 0
    else (exists p :: p in polys && FullTurns(p) > 0) ==> FullTurns(root) > 0
  }

  lemma {:induction false} InOfSign(polys: seq<seq<Edge>>, sign: int, p: seq<Edge>)
    requires p in polys && Sign(FullTurns(p)) == sign
    ensures p in OfSign(polys, sign)
    decreases |polys|
  {
    hide FullTurns;
    var n := |polys| - 1;
    if p != polys[n] {
      assert p in polys[..n];
      InOfSign(polys[..n], sign, p);
    }
  }

  lemma {:induction false} LastIsRoot(polys: seq<seq<Edge>>)
    requires Sorted(polys) != []
    ensures var all := Sorted(polys); IsRoot(polys, all[|all| - 1])
  {
    hide FullTurns, OfSign;
    var all := Sorted(polys);
    var root := all[|all| - 1];
    OfSignMembers(polys, -1);
    OfSignMembers(polys, 0);
    OfSignMembers(polys, 1);
    OfSignTurns(polys, -1);
    OfSignTurns(polys, 0);
    OfSignTurns(polys, 1);
    if p :| p in polys && FullTurns(p) == 0 {
      InOfSign(polys, 0, p);
    } else if p :| p in polys && FullTurns(p) > 0 {
      InOfSign(polys, 1, p);
    }
  }

  /** The mixes of outlines that the source's assertions rule out. */
  ghost predicate IsBadMix(polys: seq<seq<Edge>>) {
    var pos, zero := OfSign(polys, 1), OfSign(polys, 0);
    if zero == [] then |pos| > 1
    else pos != [] || |zero| != 2 || Prefix(zero[0], |zero[0]|) == Vec(0, 0)
  }

  /** The offset function used for the given outlines. */
  ghost function OffsetsFor(polys: seq<seq<Edge>>, width: int, height: int): Vec -> Vec
    requires width > 0 && height > 0 && !IsBadMix(polys)
  {
    var pos, zero := OfSign(polys, 1), OfSign(polys, 0);
    if zero != [] then
      var w := Prefix(zero[0], |zero[0]|);
      NotZero(w);
      LineWrap(w)
    else if pos != [] then Plain
    else BoxWrap(width, height)
  }

  lemma NotZero(w: Vec)
    requires w != Vec(0, 0)
    ensures Norm2(w) > 0
  {
    assert w.x != 0 ==> w.x * w.x > 0;
    assert w.y != 0 ==> w.y * w.y > 0;
    assert w.x * w.x >= 0 && w.y * w.y >= 0;
  }

  /** The displacement of an outline is a whole number of map widths and heights. */
  lemma {:induction false} PrefixFits(poly: seq<Edge>, n: nat, width: int, height: int)
    requires width > 0 && height > 0 && Loops(poly, width, height) && n < |poly|
    ensures Congruent(Plus(poly[0].pos, Prefix(poly, n)), poly[n].pos, width, height)
  {
    if n > 0 {
      PrefixFits(poly, n - 1, width, height);
      var a := Plus(poly[0].pos, Prefix(poly, n - 1));
      CongruentPlus(a, poly[n - 1].pos, poly[n - 1].off, width, height);
      assert Plus(a, poly[n - 1].off) == Plus(poly[0].pos, Prefix(poly, n));
    }
  }

  lemma DisplacementFits(poly: seq<Edge>, width: int, height: int)
    requires width > 0 && height > 0 && Loops(poly, width, height)
    ensures var w := Prefix(poly, |poly|); w.x % width == 0 && w.y % height == 0
  {
    var n := |poly|;
    PrefixFits(poly, n - 1, width, height);
    var a := Plus(poly[0].pos, Prefix(poly, n - 1));
    CongruentPlus(a, poly[n - 1].pos, poly[n - 1].off, width, height);
    var w := Prefix(poly, n);
    assert Plus(a, poly[n - 1].off) == Plus(poly[0].pos, w);
    var neg := Vec(-poly[0].pos.x, -poly[0].pos.y);
    CongruentPlus(Plus(poly[0].pos, w), poly[0].pos, neg, width, height);
    assert Plus(Plus(poly[0].pos, w), neg) == w && Plus(poly[0].pos, neg) == Vec(0, 0);
    ModUnique(0, width, 0, 0);
    ModUnique(0, height, 0, 0);
  }

  lemma {:induction false} TakeOne(polys: seq<seq<Edge>>, i: nat, sign: int)
    requires i < |polys|
    ensures OfSign(polys[..i + 1], sign) ==
            OfSign(polys[..i], sign) + if Sign(FullTurns(polys[i])) == sign then [polys[i]] else []
  {
    assert polys[..i + 1][..i] == polys[..i];
  }

  /** Sorts the outlines by the sign of their number of full turns. */
  method SortOutlines(polys: seq<seq<Edge>>, ghost width: int, ghost height: int)
    returns (neg: seq<seq<Edge>>, pos: seq<seq<Edge>>, zero: seq<seq<Edge>>)
    requires forall p :: p in polys ==> IsOutline(p, width, height)
    ensures neg == OfSign(polys, -1) && pos == OfSign(polys, 1) && zero == OfSign(polys, 0)
  {
    hide Heads, Loops, SmallSteps, Bounded, FullTurns;
    neg, pos, zero := [], [], [];
    for i := 0 to |polys|
      invariant neg == OfSign(polys[..i], -1) && pos == OfSign(polys[..i], 1) && zero == OfSign(polys[..i], 0)
    {
      TakeOne(polys, i, -1);
      TakeOne(polys, i, 1);
      TakeOne(polys, i, 0);
      assert polys[i] in polys;
      OutlineNonEmpty(polys[i], width, height);
      var direction := PolyDir(polys[i]);
      if direction > 0 {
        pos := pos + [polys[i]];
      } else if direction < 0 {
        neg := neg + [polys[i]];
      } else {
        zero := zero + [polys[i]];
      }
    }
    assert polys[..|polys|] == polys;
  }

  lemma OutlineNonEmpty(poly: seq<Edge>, width: int, height: int)
    requires IsOutline(poly, width, height)
    ensures |poly| > 0
  {}

  method Displacement(poly: seq<Edge>) returns (d: Vec)
    ensures d == Prefix(poly, |poly|)
  {
    d := Vec(0, 0);
    for i := 0 to |poly|
      invariant d == Prefix(poly, i)
    {
      d := Plus(d, poly[i].off);
    }
  }

  // ---- distances stay below the source's 1e98 ----

  lemma ShortEnough(f: Vec -> Vec, p: seq<Edge>, q: seq<Edge>)
    requires Nearest(f) && f(Vec(0, 0)) == Vec(0, 0) && |p| > 0 && |q| > 0 && Bounded(p) && Bounded(q)
    ensures Weight(f, p, q) < UNLINKED
  {
    hide Weight, Nearest, Norm2;
    var v := Minus(q[0].pos, p[0].pos);
    assert Weight(f, p, q) <= PairDist(f, p, q, 0, 0) == Norm2(f(v));
    LeastNorm(f, v, Vec(0, 0));
    NormBound(v);
  }

  lemma LeastNorm(f: Vec -> Vec, v: Vec, z: Vec)
    requires Nearest(f) && f(z) == z && z.x == 0 && z.y == 0
    ensures Norm2(f(v)) <= Norm2(v)
  {
    hide Norm2, Nearest;
    NearestAt(f, v, z);
    assert Plus(f(z), Minus(v, z)) == v;
  }

  lemma NormBound(v: Vec)
    requires -2 * REACH <= v.x <= 2 * REACH && -2 * REACH <= v.y <= 2 * REACH
    ensures Norm2(v) < UNLINKED
  {
    SquareBound(v.x, 2 * REACH);
    SquareBound(v.y, 2 * REACH);
  }

  lemma PlainGood(width: int, height: int)
    requires width > 0 && height > 0
    ensures GoodOffsets(Plain, width, height) && Plain(Vec(0, 0)) == Vec(0, 0)
  {
    PlainNearest();
  }

  lemma BoxGood(width: int, height: int)
    requires width > 0 && height > 0
    ensures GoodOffsets(BoxWrap(width, height), width, height) && BoxWrap(width, height)(Vec(0, 0)) == Vec(0, 0)
  {
    hide Nearest, Congruent;
    BoxWrapNearest(width, height);
    ModUnique(width / 2, width, 0, width / 2);
    ModUnique(height / 2, height, 0, height / 2);
  }

  lemma LineGood(w: Vec, width: int, height: int)
    requires Norm2(w) > 0 && width > 0 && height > 0 && w.x % width == 0 && w.y % height == 0
    ensures GoodOffsets(LineWrap(w), width, height) && LineWrap(w)(Vec(0, 0)) == Vec(0, 0)
  {
    hide Nearest, Congruent, Norm2;
    LineWrapNearest(w, width, height);
    RoundZero(Norm2(w));
    assert Dot(w, Vec(0, 0)) == 0;
  }

  lemma RoundZero(b: int)
    requires b > 0
    ensures Round(0, b) == 0
  {
    ModUnique(b, 2 * b, 0, b);
  }

  /** The chosen offset function is sound for every mix that passes the assertions. */
  lemma ChosenGood(polys: seq<seq<Edge>>, width: int, height: int)
    requires width > 0 && height > 0 && !IsBadMix(polys)
    requires forall p :: p in polys ==> IsOutline(p, width, height)
    ensures var f := OffsetsFor(polys, width, height); GoodOffsets(f, width, height) && f(Vec(0, 0)) == Vec(0, 0)
  {
    hide GoodOffsets, LineWrap, BoxWrap, Loops, Heads, Bounded, SmallSteps, OfSign, Norm2, Prefix;
    var zero := OfSign(polys, 0);
    if zero != [] {
      var w := Prefix(zero[0], |zero[0]|);
      NotZero(w);
      OfSignMembers(polys, 0);
      assert zero[0] in polys;
      DisplacementFits(zero[0], width, height);
      LineGood(w, width, height);
    } else if OfSign(polys, 1) != [] {
      PlainGood(width, height);
    } else {
      BoxGood(width, height);
    }
  }

  // ---- which of its congruent offsets a link takes ----

  /** The moves after which a part looks the same in the plane: none if an outline turns left, and so runs around all of
      it; whole multiples of the displacement of an outline that wraps; or any whole map widths and heights. */
  ghost predicate Shift(polys: seq<seq<Edge>>, width: int, height: int, u: Vec)
    requires width > 0 && height > 0
  {
    var pos, zero := OfSign(polys, 1), OfSign(polys, 0);
    if zero != [] then exists q: int :: u == Scaled(Prefix(zero[0], |zero[0]|), q)
    else if pos != [] then u == Vec(0, 0)
    else u.x % width == 0 && u.y % height == 0
  }

  lemma ModLess(a: int, b: int, n: int)
    requires n > 0 && a % n == b % n
    ensures (a - b) % n == 0
  {
    ModCancel(a, b, -b, n);
    ModUnique(0, n, 0, 0);
  }

  lemma ModMore(a: int, b: int, n: int)
    requires n > 0 && b % n == 0
    ensures (a + b) % n == a % n
  {
    ModPlus(b, a, n);
  }

  lemma ScaledNeg(w: Vec, k: int)
    ensures Neg(Scaled(w, k)) == Scaled(w, -k)
  {
    assert -(k * w.x) == (-k) * w.x && -(k * w.y) == (-k) * w.y;
  }

  /** A shift back is a shift. */
  lemma ShiftBack(polys: seq<seq<Edge>>, width: int, height: int, u: Vec)
    requires width > 0 && height > 0 && Shift(polys, width, height, u)
    ensures Shift(polys, width, height, Neg(u))
  {
    hide OfSign, Prefix;
    var pos, zero := OfSign(polys, 1), OfSign(polys, 0);
    if zero != [] {
      var w := Prefix(zero[0], |zero[0]|);
      var q: int :| u == Scaled(w, q);
      ScaledNeg(w, q);
    } else if pos == [] {
      ModLess(0, u.x, width);
      ModLess(0, u.y, height);
    }
  }

  lemma LineShift(w: Vec, v: Vec, u: Vec, q: int)
    requires Norm2(w) > 0 && u == Scaled(w, q)
    ensures var off := LineWrap(w)(v);
            Minus(off, v) == Scaled(w, -Round(Dot(w, v), Norm2(w))) && Norm2(off) <= Norm2(Plus(v, u))
  {
    hide Norm2, Round, Dot;
    var d := Round(Dot(w, v), Norm2(w));
    ScaledNeg(w, d);
    assert Minus(LineWrap(w)(v), v) == Neg(Scaled(w, d));
    ScaledNeg(w, q);
    LineLeast(w, v, -q);
    assert Minus(v, Scaled(w, -q)) == Plus(v, u);
  }

  lemma BoxShift(width: int, height: int, v: Vec, u: Vec)
    requires width > 0 && height > 0 && u.x % width == 0 && u.y % height == 0
    ensures var off := BoxWrap(width, height)(v);
            Minus(off, v).x % width == 0 && Minus(off, v).y % height == 0 && Norm2(off) <= Norm2(Plus(v, u))
  {
    hide Centred;
    CentredCongruent(v.x, width);
    CentredCongruent(v.y, height);
    ModLess(Centred(v.x, width), v.x, width);
    ModLess(Centred(v.y, height), v.y, height);
    ModMore(v.x, u.x, width);
    ModMore(v.y, u.y, height);
    CentredLeast(v.x, v.x + u.x, width);
    CentredLeast(v.y, v.y + u.y, height);
  }

  /** The chosen function makes a shift, and no shift makes the offset shorter. */
  lemma ChosenShortest(polys: seq<seq<Edge>>, width: int, height: int, v: Vec, u: Vec)
    requires width > 0 && height > 0 && !IsBadMix(polys) && Shift(polys, width, height, u)
    ensures var off := OffsetsFor(polys, width, height)(v);
            Shift(polys, width, height, Minus(off, v)) && Norm2(off) <= Norm2(Plus(v, u))
  {
    hide OfSign, Prefix, LineWrap, BoxWrap, Norm2;
    var pos, zero := OfSign(polys, 1), OfSign(polys, 0);
    if zero != [] {
      var w := Prefix(zero[0], |zero[0]|);
      var q: int :| u == Scaled(w, q);
      NotZero(w);
      LineShift(w, v, u, q);
    } else if pos != [] {
      assert Plus(v, u) == v && Minus(v, v) == Vec(0, 0);
    } else {
      BoxShift(width, height, v, u);
    }
  }

  /** From either end. */
  lemma TakenShortest(polys: seq<seq<Edge>>, width: int, height: int, v: Vec, off: Vec, u: Vec)
    requires width > 0 && height > 0 && !IsBadMix(polys) && Shift(polys, width, height, u)
    requires Taken(OffsetsFor(polys, width, height), off, v)
    ensures Shift(polys, width, height, Minus(off, v)) && Norm2(off) <= Norm2(Plus(v, u))
  {
    hide IsBadMix, Shift, OffsetsFor, Norm2;
    ChosenShortest(polys, width, height, v, u);
    var back := OffsetsFor(polys, width, height)(Neg(v));
    if off == Neg(back) {
      ShiftBack(polys, width, height, u);
      ChosenShortest(polys, width, height, Neg(v), Neg(u));
      ShiftBack(polys, width, height, Minus(back, Neg(v)));
      assert Neg(Minus(back, Neg(v))) == Minus(off, v);
      assert Plus(Neg(v), Neg(u)) == Neg(Plus(v, u));
      NormNeg(back);
      NormNeg(Plus(v, u));
    }
  }

  /** Link l of outline i leads to its target corner or a shift of it, and no two corners of the two outlines, however
      shifted, are closer. */
  ghost predicate LinkShortest(polys: seq<seq<Edge>>, width: int, height: int, tree: Forest, i: nat, l: TreeLink)
    requires width > 0 && height > 0 && i < |tree|
  {
    LinkOk(tree, i, l) &&
    var p, q := tree[i].poly, tree[l.child].poly;
    Shift(polys, width, height, Minus(Plus(p[l.start].pos, l.off), q[l.index].pos)) &&
    forall a, b, u :: 0 <= a < |p| && 0 <= b < |q| && Shift(polys, width, height, u) ==>
      Norm2(l.off) <= Norm2(Plus(Minus(q[b].pos, p[a].pos), u))
  }

  ghost predicate AllShortest(polys: seq<seq<Edge>>, width: int, height: int, tree: Forest)
    requires width > 0 && height > 0
  {
    forall i, j :: 0 <= i < |tree| && 0 <= j < |tree[i].links| ==>
      LinkShortest(polys, width, height, tree, i, tree[i].links[j])
  }

  lemma {:induction false} ShortestOf(polys: seq<seq<Edge>>, width: int, height: int, tree: Forest, i: nat, l: TreeLink)
    requires width > 0 && height > 0 && !IsBadMix(polys) && WellFormed(tree) && i < |tree|
    requires ShortLink(OffsetsFor(polys, width, height), tree, i, l)
    ensures LinkShortest(polys, width, height, tree, i, l)
  {
    hide IsBadMix, Shift, OffsetsFor, Norm2, Weight, Taken;
    var f, p, q := OffsetsFor(polys, width, height), tree[i].poly, tree[l.child].poly;
    var v := Minus(q[l.index].pos, p[l.start].pos);
    NoShift(polys, width, height);
    TakenShortest(polys, width, height, v, l.off, Vec(0, 0));
    assert Minus(l.off, v) == Minus(Plus(p[l.start].pos, l.off), q[l.index].pos);
    forall a, b, u | 0 <= a < |p| && 0 <= b < |q| && Shift(polys, width, height, u)
      ensures Norm2(l.off) <= Norm2(Plus(Minus(q[b].pos, p[a].pos), u))
    {
      assert Weight(f, p, q) <= PairDist(f, p, q, a, b);
      ChosenShortest(polys, width, height, Minus(q[b].pos, p[a].pos), u);
    }
  }

  /** Not moving is a shift. */
  lemma NoShift(polys: seq<seq<Edge>>, width: int, height: int)
    requires width > 0 && height > 0
    ensures Shift(polys, width, height, Vec(0, 0))
  {
    hide OfSign, Prefix;
    var zero := OfSign(polys, 0);
    if zero != [] {
      assert Vec(0, 0) == Scaled(Prefix(zero[0], |zero[0]|), 0);
    }
    ModUnique(0, width, 0, 0);
    ModUnique(0, height, 0, 0);
  }

  lemma {:induction false} EachShortest(polys: seq<seq<Edge>>, width: int, height: int, tree: Forest)
    requires width > 0 && height > 0 && !IsBadMix(polys)
    requires ShortLinks(OffsetsFor(polys, width, height), tree)
    ensures AllShortest(polys, width, height, tree)
  {
    hide IsBadMix, OffsetsFor, LinkShortest;
    var f := OffsetsFor(polys, width, height);
    forall i, j | 0 <= i < |tree| && 0 <= j < |tree[i].links|
      ensures LinkShortest(polys, width, height, tree, i, tree[i].links[j])
    {
      assert ShortLink(f, tree, i, tree[i].links[j]);
      ShortestOf(polys, width, height, tree, i, tree[i].links[j]);
    }
  }

  /** The records are the tour of a least tree of shortest links over the outlines. */
  ghost predicate TouredAs(polys: seq<seq<Edge>>, width: int, height: int, recs: seq<Rec>, tree: Forest,
                           slot: seq<(nat, nat)>, ord: seq<int>)
    requires width > 0 && height > 0 && !IsBadMix(polys)
  {
    LeastTree(Sorted(polys), OffsetsFor(polys, width, height), tree, slot, ord) &&
    AllShortest(polys, width, height, tree) && Fits(tree, width, height) && |tree| > 0 && |tree[0].poly| > 0 &&
    recs == Visit(tree, 0, tree[0].poly[0].pos, 0)
  }

  // ---- the procedure ----

  method MakeNodes(polys: seq<seq<Edge>>) returns (nodes: seq<Polynode>)
    ensures |nodes| == |polys| && Distinct(nodes)
    ensures forall i :: 0 <= i < |nodes| ==>
              fresh(nodes[i]) && nodes[i].poly == polys[i] && Emptied(nodes[i]) && nodes[i].dist.d == UNLINKED
  {
    nodes := [];
    for i := 0 to |polys|
      invariant |nodes| == i && Distinct(nodes)
      invariant forall k :: 0 <= k < i ==>
                  fresh(nodes[k]) && nodes[k].poly == polys[k] && Emptied(nodes[k]) && nodes[k].dist.d == UNLINKED
    {
      var n := new Polynode(polys[i]);
      nodes := nodes + [n];
    }
  }

  lemma NodesGood(nodes: seq<Polynode>, polys: seq<seq<Edge>>, f: Vec -> Vec, width: int, height: int)
    requires |nodes| == |polys| && Distinct(nodes) && forall i :: 0 <= i < |nodes| ==> nodes[i].poly == polys[i]
    requires forall i :: 0 <= i < |polys| ==> IsOutline(polys[i], width, height)
    requires GoodOffsets(f, width, height) && f(Vec(0, 0)) == Vec(0, 0)
    ensures GoodNodes(nodes, f, width, height)
  {
    hide Weight, Nearest, Heads, Loops, SmallSteps, Congruent, Bounded;
    forall i | 0 <= i < |nodes| ensures |nodes[i].poly| > 0 && GoodOutline(nodes[i].poly, width, height) {
      OutlineNonEmpty(polys[i], width, height);
    }
    forall i, j | 0 <= i < |nodes| && 0 <= j < |nodes| ensures Weight(f, nodes[i].poly, nodes[j].poly) < UNLINKED {
      ShortEnough(f, nodes[i].poly, nodes[j].poly);
    }
  }

  /** The tree attaches the outlines in the order ord by shortest links; these connect all outlines, and no connecting
      set of links is cheaper. */
  ghost predicate LeastTree(polys: seq<seq<Edge>>, f: Vec -> Vec, tree: Forest, slot: seq<(nat, nat)>, ord: seq<int>) {
    IsTree(tree, slot) && Split(|polys|, ord, []) && |tree| == |ord| &&
    (forall k :: 0 <= k < |tree| ==> 0 <= ord[k] < |polys| && tree[k].poly == polys[ord[k]]) &&
    ord[0] == |polys| - 1 && ShortLinks(f, tree) &&
    (var own := LinksTo(slot, ord, |tree|);
     Within(own, |polys|) && Connects(own, {|polys| - 1}, |polys|) &&
     Total(own, Distances(f, polys)) == ForestCost(tree, |tree|)) &&
    forall links: set<Link> :: Within(links, |polys|) && Connects(links, {|polys| - 1}, |polys|) ==>
      ForestCost(tree, |tree|) <= Total(links, Distances(f, polys))
  }

  lemma {:induction false} OwnWeighs(polys: seq<seq<Edge>>, f: Vec -> Vec, tree: Forest, ord: seq<int>)
    requires WellFormed(tree) && |tree| == |ord|
    requires forall k :: 0 <= k < |tree| ==> 0 <= ord[k] < |polys| && tree[k].poly == polys[ord[k]]
    ensures Weighs(f, tree, ord, Distances(f, polys))
  {
    hide Weight;
  }

  /** The tree's own links connect all outlines at its cost. */
  lemma {:induction false} OwnLinks(polys: seq<seq<Edge>>, f: Vec -> Vec, tree: Forest, slot: seq<(nat, nat)>,
                                    ord: seq<int>)
    requires IsTree(tree, slot) && Split(|polys|, ord, []) && |tree| == |ord| && ord[0] == |polys| - 1 &&
             ShortLinks(f, tree)
    requires forall k :: 0 <= k < |tree| ==> 0 <= ord[k] < |polys| && tree[k].poly == polys[ord[k]]
    ensures var own := LinksTo(slot, ord, |tree|);
            Within(own, |polys|) && Connects(own, {|polys| - 1}, |polys|) &&
            Total(own, Distances(f, polys)) == ForestCost(tree, |tree|)
  {
    hide ShortLinks, Weight, Joins, Total, ForestCost, Weighs, LinksTo, Distances;
    TreeShape(tree, slot);
    OwnWeighs(polys, f, tree, ord);
    assert Orders(tree, slot, ord);
    hide IsTree, WellFormed;
    LinksWithin(tree, slot, ord, |polys|);
    TreeCosts(f, tree, slot, ord, Distances(f, polys));
    EachJoins(LinksTo(slot, ord, |tree|), ord, |polys|);
  }

  lemma {:induction false} EachJoins(links: set<Link>, ord: seq<int>, n: nat)
    requires Split(n, ord, []) && ord != [] && forall k :: 0 <= k < |ord| ==> Joins(links, {ord[0]}, ord[k])
    ensures Connects(links, {ord[0]}, n)
  {
    hide Joins;
    forall v | 0 <= v < n ensures Joins(links, {ord[0]}, v) {
      assert v in ord;
    }
  }

  lemma {:induction false} NoneCheaper(polys: seq<seq<Edge>>, f: Vec -> Vec, core: set<int>, cost: int)
    requires Cheap(Distances(f, polys), |polys|, |polys| - 1, core, cost)
    ensures forall links: set<Link> :: Within(links, |polys|) && Connects(links, {|polys| - 1}, |polys|) ==>
              cost <= Total(links, Distances(f, polys))
  {
    hide Weight, Cheap, Connects, Within, Total;
    var w, n := Distances(f, polys), |polys|;
    forall a, b | 0 <= a < n && 0 <= b < n ensures w(a, b) >= 0 {
      if |polys[a]| > 0 && |polys[b]| > 0 { WeightNonNegative(f, polys[a], polys[b]); }
    }
    forall links: set<Link> | Within(links, n) && Connects(links, {n - 1}, n)
      ensures cost <= Total(links, w)
    {
      CheapEnd(w, n, n - 1, core, cost, links);
    }
  }

  lemma PolysAre(nodes: seq<Polynode>, polys: seq<seq<Edge>>, att: seq<Polynode>, tree: Forest, ord: seq<int>)
    requires |nodes| == |polys| && forall i :: 0 <= i < |nodes| ==> nodes[i].poly == polys[i]
    requires Picks(nodes, att, ord) && HoldsTree(att, tree)
    ensures Polys(nodes) == polys && |tree| == |ord|
    ensures forall k :: 0 <= k < |tree| ==> 0 <= ord[k] < |polys| && tree[k].poly == polys[ord[k]]
  {
    hide Holds;
  }

  lemma {:induction false} TreeIsLeast(polys: seq<seq<Edge>>, f: Vec -> Vec, tree: Forest, slot: seq<(nat, nat)>,
                                       ord: seq<int>)
    requires IsTree(tree, slot) && Split(|polys|, ord, []) && |tree| == |ord| && ShortLinks(f, tree) &&
             ord[0] == |polys| - 1
    requires forall k :: 0 <= k < |tree| ==> 0 <= ord[k] < |polys| && tree[k].poly == polys[ord[k]]
    requires Cheap(Distances(f, polys), |polys|, |polys| - 1, Core(ord), ForestCost(tree, |tree|))
    ensures LeastTree(polys, f, tree, slot, ord)
  {
    TreeShape(tree, slot);
    hide IsTree, WellFormed, Split, ShortLinks, Cheap, Core, Within, Connects, Total, ForestCost, Distances, LinksTo;
    hide Weight;
    OwnLinks(polys, f, tree, slot, ord);
    NoneCheaper(polys, f, Core(ord), ForestCost(tree, |tree|));
  }

  /** Links and merges outlines that passed the assertions. */
  method MergeOutlines(polys: seq<seq<Edge>>, f: Vec -> Vec, ghost width: int, ghost height: int)
    returns (recs: seq<Rec>, ghost tree: Forest, ghost slot: seq<(nat, nat)>, ghost ord: seq<int>)
    requires polys != [] && width > 0 && height > 0 && GoodOffsets(f, width, height) && f(Vec(0, 0)) == Vec(0, 0)
    requires forall i :: 0 <= i < |polys| ==> IsOutline(polys[i], width, height)
    ensures LeastTree(polys, f, tree, slot, ord) && Fits(tree, width, height) && tree[0].poly == polys[|polys| - 1]
    ensures |tree| > 0 && |tree[0].poly| > 0 && recs == Visit(tree, 0, tree[0].poly[0].pos, 0)
  {
    hide GoodOffsets, IsOutline, LeastTree, Cheap, Distances, IsTree, Fits, Split, GoodNodes, Holds;
    var nodes := MakeNodes(polys);
    NodesGood(nodes, polys, f, width, height);
    var res: Polynode;
    ghost var att: seq<Polynode>;
    res, att, ord, tree, slot := LinkAll(nodes, f, width, height);
    PolysAre(nodes, polys, att, tree, ord);
    TreeIsLeast(polys, f, tree, slot, ord);
    TreeSite(att, tree, slot, width, height);
    recs := res.Traverse(res.poly[0].pos, 0, [], att, tree, slot, 0);
  }

  lemma TreeSite(att: seq<Polynode>, tree: Forest, slot: seq<(nat, nat)>, width: int, height: int)
    requires HoldsTree(att, tree) && IsTree(tree, slot) && Fits(tree, width, height)
    ensures |att| > 0 && att[0].Site(att, tree, slot, 0) && |att[0].poly| > 0 && WellFormed(tree)
  {
    FitsLoops(tree, width, height, 0);
  }

  /** poly_link up to the treatment of parts without an outer outline. */
  method LinkOutlines(polys: seq<seq<Edge>>, width: int, height: int)
    returns (res: Merged, ghost tree: Forest, ghost slot: seq<(nat, nat)>, ghost ord: seq<int>)
    requires width > 0 && height > 0 && forall p :: p in polys ==> IsOutline(p, width, height)
    ensures res.NoOutlines? <==> polys == []
    ensures res.BadMix? <==> IsBadMix(polys)
    ensures res.Merged? ==>
      && (res.extrawrap <==> OfSign(polys, 1) == [] && OfSign(polys, 0) == [])
      && TouredAs(polys, width, height, res.recs, tree, slot, ord) && IsRoot(polys, tree[0].poly)
  {
    hide IsOutline, LeastTree, IsTree, Fits, OfSign, GoodOffsets, LineWrap, BoxWrap, Prefix, Norm2, AllShortest, IsRoot;
    tree, slot, ord := [], [], [];
    EmptyMix();
    var neg, pos, zero := SortOutlines(polys, width, height);
    var f: Vec -> Vec := Plain;
    var extrawrap := false;
    if pos != [] && zero == [] {
      if |pos| > 1 { return BadMix, tree, slot, ord; }
    } else if zero == [] && pos == [] {
      f := BoxWrap(width, height);
      extrawrap := true;
    } else {
      if pos != [] { return BadMix, tree, slot, ord; }
      if |zero| != 2 { return BadMix, tree, slot, ord; }
      var w := Displacement(zero[0]);
      if w == Vec(0, 0) { return BadMix, tree, slot, ord; }
      NotZero(w);
      f := LineWrap(w);
    }
    ChosenGood(polys, width, height);
    SortedOutlines(polys, width, height);
    if neg + pos + zero == [] { return NoOutlines, tree, slot, ord; }
    var recs;
    recs, tree, slot, ord := MergeOutlines(neg + pos + zero, f, width, height);
    TreeShortest(polys, width, height, tree, slot, ord);
    LastIsRoot(polys);
    res := Merged(recs, extrawrap);
  }

  lemma {:induction false} TreeShortest(polys: seq<seq<Edge>>, width: int, height: int, tree: Forest,
                                        slot: seq<(nat, nat)>, ord: seq<int>)
    requires width > 0 && height > 0 && !IsBadMix(polys)
    requires LeastTree(Sorted(polys), OffsetsFor(polys, width, height), tree, slot, ord)
    ensures AllShortest(polys, width, height, tree)
  {
    hide IsBadMix, OffsetsFor, AllShortest, IsTree, Within, Connects, Total, ForestCost, ShortLinks;
    EachShortest(polys, width, height, tree);
  }

  lemma EmptyMix()
    ensures !IsBadMix([])
  {}

  lemma SortedOutlines(polys: seq<seq<Edge>>, width: int, height: int)
    requires forall p :: p in polys ==> IsOutline(p, width, height)
    ensures |Sorted(polys)| == |polys| && forall i :: 0 <= i < |Sorted(polys)| ==>
            IsOutline(Sorted(polys)[i], width, height)
  {
    hide IsOutline, OfSign;
    OfSignMembers(polys, -1);
    OfSignMembers(polys, 1);
    OfSignMembers(polys, 0);
    OfSignCount(polys);
  }
}
