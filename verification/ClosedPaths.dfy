/** Sums along open and closed paths of points. */
module ClosedPaths {
  import opened Sequences
  import opened Torus

  /** The sum of f over the edges of an open path. */
  function Path(l: seq<Vec>, f: (Vec, Vec) -> int): int {
    if |l| <= 1 then 0 else f(l[0], l[1]) + Path(l[1..], f)
  }

  /** The sum of f over the edges of a closed outline. */
  function Round(l: seq<Vec>, f: (Vec, Vec) -> int): int
    requires l != []
  {
    f(l[|l| - 1], l[0]) + Path(l, f)
  }

  lemma {:induction false} PathExtends(l: seq<Vec>, q: Vec, f: (Vec, Vec) -> int)
    requires l != []
    ensures Path(l + [q], f) == Path(l, f) + f(l[|l| - 1], q)
  {
    if |l| == 1 {
      assert (l + [q])[1..] == [q];
    } else {
      PathExtends(l[1..], q, f);
      assert (l + [q])[1..] == l[1..] + [q];
    }
  }

  /** f does not depend on the sense of an edge, or changes its sign with it. */
  ghost predicate Sensed(f: (Vec, Vec) -> int, signed: bool) {
    forall p, q :: f(p, q) == if signed then -f(q, p) else f(q, p)
  }

  lemma {:induction false} PathReversed(l: seq<Vec>, f: (Vec, Vec) -> int, signed: bool)
    requires Sensed(f, signed)
    ensures Path(Reversed(l), f) == if signed then -Path(l, f) else Path(l, f)
  {
    if |l| > 1 {
      PathReversed(l[1..], f, signed);
      PathExtends(Reversed(l[1..]), l[0], f);
    }
  }

  lemma RoundReversed(l: seq<Vec>, f: (Vec, Vec) -> int, signed: bool)
    requires l != [] && Sensed(f, signed)
    ensures Round(Reversed(l), f) == if signed then -Round(l, f) else Round(l, f)
  {
    PathReversed(l, f, signed);
    assert f(l[0], l[|l| - 1]) == if signed then -f(l[|l| - 1], l[0]) else f(l[|l| - 1], l[0]);
  }

  lemma {:induction false} RoundRotated(l: seq<Vec>, k: nat, f: (Vec, Vec) -> int)
    requires l != [] && k <= |l|
    ensures Round(l[k..] + l[..k], f) == Round(l, f)
    decreases k
  {
    if k == 0 {
      assert l[0..] + l[..0] == l;
    } else {
      RoundRotated(l, k - 1, f);
      var r := l[k - 1..] + l[..k - 1];
      var a, m := r[0], r[1..];
      assert l[k..] + l[..k] == m + [a];
      if m != [] { PathExtends(m, a, f); }
    }
  }

  predicate AddsUp(f: (Vec, Vec) -> int, g: (Vec, Vec) -> int, h: (Vec, Vec) -> int, p: Vec, q: Vec) {
    f(p, q) + g(p, q) == h(p, q)
  }

  lemma {:induction false} PathAdds(l: seq<Vec>, f: (Vec, Vec) -> int, g: (Vec, Vec) -> int, h: (Vec, Vec) -> int)
    requires forall i :: 0 <= i < |l| - 1 ==> AddsUp(f, g, h, l[i], l[i + 1])
    ensures Path(l, f) + Path(l, g) == Path(l, h)
  {
    if |l| > 1 {
      forall i | 0 <= i < |l[1..]| - 1 ensures AddsUp(f, g, h, l[1..][i], l[1..][i + 1]) {
        assert l[1..][i] == l[i + 1] && l[1..][i + 1] == l[i + 2];
      }
      PathAdds(l[1..], f, g, h);
    }
  }
}
