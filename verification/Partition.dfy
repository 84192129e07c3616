/** Connected parts of a block map on the torus, labelled with unwrapped positions. */
module Partition {
  import opened Torus
  import opened Blocks
  import opened Options

  /** Part number of a cell and the unwrapped position at which the search reached it. */
  datatype Label = Label(part: nat, pos: Vec)

  type Labels = Grid<Option<Label>>

  /** Blocks p and p + Unit(d) touch through a side that both leave open to walls. */
  predicate Joined(m: BlockMap, p: Vec, d: Dir)
    requires m.Valid()
  {
    var q := Plus(p, Unit(d));
    d in Ways(BlockAt(m, p)) && IsWall(m, q) && Turned(d, 4) in Ways(BlockAt(m, q))
  }

  ghost predicate Adjacent(m: BlockMap, p: Vec, q: Vec)
    requires m.Valid()
  {
    exists d: Dir :: Joined(m, p, d) && q == Plus(p, Unit(d))
  }

  ghost predicate Chain(m: BlockMap, path: seq<Vec>, a: Vec, b: Vec)
    requires m.Valid()
  {
    |path| > 0 && path[0] == a && path[|path| - 1] == b &&
    forall i :: 0 <= i < |path| - 1 ==> Adjacent(m, path[i], path[i + 1])
  }

  /** In the plane unrolled from the torus, a walk over joined blocks leads from a to b. */
  ghost predicate Reach(m: BlockMap, a: Vec, b: Vec)
    requires m.Valid()
  {
    exists path :: Chain(m, path, a, b)
  }

  /** On the torus, a walk over joined blocks leads from cell a to cell b. */
  ghost predicate Connected(m: BlockMap, a: Vec, b: Vec)
    requires m.Valid()
  {
    exists c :: Reach(m, a, c) && Congruent(c, b, m.width, m.height)
  }

  function SeqOfCells(width: int, height: int): (cells: seq<Vec>)
    requires width > 0 && height > 0
    ensures |cells| == width * height
  {
    seq(width * height, n requires 0 <= n < width * height => Vec(n % width, n / width))
  }

  function ScanIndex(p: Vec, width: int): int { p.y * width + p.x }

  lemma CellsInRange(width: int, height: int, n: int)
    requires width > 0 && height > 0 && 0 <= n < width * height
    ensures var p := SeqOfCells(width, height)[n];
            0 <= p.x < width && 0 <= p.y < height && ScanIndex(p, width) == n
  {
    assert n == (n / width) * width + n % width;
    assert n / width >= height ==> (n / width) * width >= height * width;
  }

  lemma RowBound(y: int, width: int, height: int)
    requires 0 <= y < height && width > 0
    ensures 0 <= y * width <= width * height - width
  {
    assert (height - y - 1) * width >= 0;
    assert (height - y - 1) * width == height * width - y * width - width;
  }

  lemma CellOfIndex(p: Vec, width: int, height: int)
    requires 0 <= p.x < width && 0 <= p.y < height
    ensures 0 <= ScanIndex(p, width) < width * height
    ensures SeqOfCells(width, height)[ScanIndex(p, width)] == p
  {
    RowBound(p.y, width, height);
    ModUnique(ScanIndex(p, width), width, p.y, p.x);
  }

  /** Walls on both sides of the edge that leaves corner v in direction d. */
  predicate Inside(m: BlockMap, v: Vec, d: Dir)
    requires m.Valid()
  {
    Solid(m, v, d) && Solid(m, v, Turned(d, 1))
  }

  /** Blocks are joined exactly when both fill their side of the edge between them, never across a corner. */
  lemma JoinedSides(m: BlockMap, p: Vec, d: Dir)
    requires m.Valid()
    ensures Joined(m, p, d) <==>
            match d
            case 0 => Inside(m, Plus(p, Vec(1, 0)), 6)
            case 2 => Inside(m, p, 0)
            case 4 => Inside(m, p, 6)
            case 6 => Inside(m, Plus(p, Vec(0, 1)), 0)
            case _ => false
  {
    hide Ways, Fills, BlockAt;
    var q := Plus(p, Unit(d));
    WaysFilled(BlockAt(m, p), d);
    WaysFilled(BlockAt(m, q), Turned(d, 4));
    if Turned(d, 4) in Ways(BlockAt(m, q)) { NoWaysOpen(BlockAt(m, q)); }
    assert Plus(Plus(p, Vec(1, 0)), Unit(4)) == p == Plus(Plus(p, Vec(0, 1)), Unit(2));
    assert d == 0 ==> Plus(p, Vec(1, 0)) == q;
    assert d == 6 ==> Plus(p, Vec(0, 1)) == q;
  }

  lemma JoinedBack(m: BlockMap, p: Vec, d: Dir)
    requires m.Valid() && Joined(m, p, d)
    ensures d % 2 == 0
    ensures Joined(m, Plus(p, Unit(d)), Turned(d, 4))
    ensures Plus(Plus(p, Unit(d)), Unit(Turned(d, 4))) == p
  {}

  lemma JoinedCongruent(m: BlockMap, p: Vec, q: Vec, d: Dir)
    requires m.Valid() && Congruent(p, q, m.width, m.height)
    ensures Joined(m, p, d) == Joined(m, q, d)
  {
    CongruentPlus(p, q, Unit(d), m.width, m.height);
  }

  lemma ReachSelf(m: BlockMap, a: Vec)
    requires m.Valid()
    ensures Reach(m, a, a)
  {
    assert Chain(m, [a], a, a);
  }

  lemma ReachStep(m: BlockMap, a: Vec, b: Vec, d: Dir)
    requires m.Valid() && Reach(m, a, b) && Joined(m, b, d)
    ensures Reach(m, a, Plus(b, Unit(d)))
  {
    var path :| Chain(m, path, a, b);
    var q := Plus(b, Unit(d));
    assert Adjacent(m, b, q);
    assert Chain(m, path + [q], a, q);
  }

  lemma ReachTrans(m: BlockMap, a: Vec, b: Vec, c: Vec)
    requires m.Valid() && Reach(m, a, b) && Reach(m, b, c)
    ensures Reach(m, a, c)
  {
    var p :| Chain(m, p, a, b);
    var q :| Chain(m, q, b, c);
    var r := p + q[1..];
    forall i | 0 <= i < |r| - 1
      ensures Adjacent(m, r[i], r[i + 1])
    {
      if i < |p| - 1 {
      } else {
        assert r[i] == q[i + 1 - |p|];
        assert r[i + 1] == q[i + 2 - |p|];
      }
    }
    assert Chain(m, r, a, c);
  }

  lemma {:induction false} ChainBack(m: BlockMap, path: seq<Vec>, a: Vec, b: Vec)
    requires m.Valid() && Chain(m, path, a, b)
    ensures Reach(m, b, a)
    decreases |path|
  {
    if |path| == 1 {
      ReachSelf(m, a);
    } else {
      var n := |path|;
      var c := path[n - 2];
      assert Adjacent(m, path[n - 2], path[n - 1]);
      var d: Dir :| Joined(m, c, d) && b == Plus(c, Unit(d));
      JoinedBack(m, c, d);
      ReachSelf(m, b);
      ReachStep(m, b, b, Turned(d, 4));
      ChainBack(m, path[..n - 1], a, c);
      ReachTrans(m, b, c, a);
    }
  }

  lemma ReachBack(m: BlockMap, a: Vec, b: Vec)
    requires m.Valid() && Reach(m, a, b)
    ensures Reach(m, b, a)
  {
    var path :| Chain(m, path, a, b);
    ChainBack(m, path, a, b);
  }

  lemma {:induction false} ChainShift(m: BlockMap, path: seq<Vec>, a: Vec, b: Vec, c: Vec)
    requires m.Valid() && Chain(m, path, a, b) && Congruent(a, c, m.width, m.height)
    ensures Connected(m, c, b)
    decreases |path|
  {
    if |path| == 1 {
      ReachSelf(m, c);
    } else {
      var n := |path|;
      var e := path[n - 2];
      assert Adjacent(m, path[n - 2], path[n - 1]);
      var d: Dir :| Joined(m, e, d) && b == Plus(e, Unit(d));
      ChainShift(m, path[..n - 1], a, e, c);
      var f :| Reach(m, c, f) && Congruent(f, e, m.width, m.height);
      JoinedCongruent(m, f, e, d);
      ReachStep(m, c, f, d);
      CongruentPlus(f, e, Unit(d), m.width, m.height);
    }
  }

  /** The labelled cells are walls, each reached by a walk from the seed of its part. */
  ghost predicate Sound(m: BlockMap, labels: Labels, seeds: seq<Vec>)
    requires m.Valid() && labels.Valid() && labels.width == m.width && labels.height == m.height
  {
    && (forall p {:trigger labels.At(p)} :: labels.At(p).Some? ==>
          var l := labels.At(p).value;
          IsWall(m, p) && l.part < |seeds| && Congruent(l.pos, p, m.width, m.height) && Reach(m, seeds[l.part], l.pos))
    && forall k :: 0 <= k < |seeds| ==>
         m.InRange(seeds[k]) && labels.At(seeds[k]) == Some(Label(k, seeds[k]))
  }

  /** Joined neighbours of cells of part k carry part k, except those still waiting in left. */
  ghost predicate Closed(m: BlockMap, labels: Labels, k: nat, left: seq<Vec>)
    requires m.Valid() && labels.Valid()
  {
    forall p, d: Dir {:trigger labels.At(p), Unit(d)} :: labels.At(p).Some? ==>
      var l := labels.At(p).value;
      l.part == k && l.pos !in left && Joined(m, l.pos, d) ==>
        var n := labels.At(Plus(l.pos, Unit(d)));
        n.Some? && n.value.part == k
  }

  /** Seeds are numbered in scanning order and each is the first cell of its part. */
  ghost predicate SeedsFirst(labels: Labels, seeds: seq<Vec>)
    requires labels.Valid()
  {
    && (forall i, j :: 0 <= i < j < |seeds| ==> ScanIndex(seeds[i], labels.width) < ScanIndex(seeds[j], labels.width))
    && forall p :: labels.InRange(p) && labels.At(p).Some? && labels.At(p).value.part < |seeds| ==>
         ScanIndex(seeds[labels.At(p).value.part], labels.width) <= ScanIndex(p, labels.width)
  }

  ghost predicate Waiting(labels: Labels, k: nat, left: seq<Vec>)
    requires labels.Valid()
  {
    forall q :: q in left ==> labels.At(q) == Some(Label(k, q))
  }

  ghost predicate IsPartition(m: BlockMap, labels: Labels, seeds: seq<Vec>)
    requires m.Valid()
  {
    && labels.Valid() && labels.width == m.width && labels.height == m.height
    && Sound(m, labels, seeds) && Spread(labels) && Stepped(m, labels, seeds)
    && (forall p :: IsWall(m, p) ==> labels.At(p).Some?)
    && (forall k :: 0 <= k < |seeds| ==> Closed(m, labels, k, []))
    && SeedsFirst(labels, seeds)
  }

  /** Labelled neighbours of the current part that belong to an earlier part cannot exist. */
  lemma NeighbourIsMine(m: BlockMap, labels: Labels, seeds: seq<Vec>, p: Vec, d: Dir, k: nat)
    requires m.Valid() && labels.Valid() && labels.width == m.width && labels.height == m.height
    requires Sound(m, labels, seeds) && |seeds| == k + 1
    requires forall j: nat :: j < k ==> Closed(m, labels, j, [])
    requires labels.At(p) == Some(Label(k, p)) && Joined(m, p, d) && labels.At(Plus(p, Unit(d))).Some?
    ensures labels.At(Plus(p, Unit(d))).value.part == k
  {
    var q := Plus(p, Unit(d));
    var l := labels.At(q).value;
    var u := Unit(Turned(d, 4));
    JoinedBack(m, p, d);
    JoinedCongruent(m, l.pos, q, Turned(d, 4));
    CongruentPlus(l.pos, q, u, m.width, m.height);
    assert labels.At(Plus(l.pos, u)) == labels.At(p);
    assert l.part < k ==> Closed(m, labels, l.part, []);
  }

  ghost predicate Keeps(old_: Labels, new_: Labels, k: nat)
    requires old_.Valid() && new_.Valid()
  {
    new_.width == old_.width && new_.height == old_.height &&
    forall p {:trigger new_.At(p)} ::
      (old_.At(p).Some? ==> new_.At(p) == old_.At(p)) &&
      (old_.At(p).None? && new_.At(p).Some? ==> new_.At(p).value.part == k)
  }

  lemma KeepsClosed(m: BlockMap, old_: Labels, new_: Labels, k: nat, j: nat)
    requires m.Valid() && old_.Valid() && new_.Valid() && Keeps(old_, new_, k)
    requires j < k && Closed(m, old_, j, [])
    ensures Closed(m, new_, j, [])
  {}

  ghost function Unlabelled(labels: Labels): set<Vec>
    requires labels.Valid()
  {
    set x, y | 0 <= x < labels.width && 0 <= y < labels.height && labels.At(Vec(x, y)).None? :: Vec(x, y)
  }

  lemma LabelShrinks(labels: Labels, p: Vec, l: Label)
    requires labels.Valid() && labels.At(p).None?
    ensures Unlabelled(labels.Set(p, Some(l))) < Unlabelled(labels)
  {
    var h := labels.Home(p);
    assert labels.At(h).None? by { AtHome(labels, p); }
    assert h == Vec(h.x, h.y);
    assert h in Unlabelled(labels);
    var g := labels.Set(p, Some(l));
    assert g.At(h).Some? by { assert labels.Home(h) == h; }
    assert h !in Unlabelled(g);
  }

  /** One more label keeps what is known about the labels. */
  lemma SetSound(m: BlockMap, labels: Labels, seeds: seq<Vec>, p: Vec, k: nat)
    requires m.Valid() && labels.Valid() && labels.width == m.width && labels.height == m.height
    requires Sound(m, labels, seeds) && k < |seeds| && labels.At(p).None?
    requires IsWall(m, p) && Reach(m, seeds[k], p)
    ensures Sound(m, labels.Set(p, Some(Label(k, p))), seeds)
  {
    var g := labels.Set(p, Some(Label(k, p)));
    forall q {:trigger g.At(q)} | g.At(q).Some?
      ensures var l := g.At(q).value;
              IsWall(m, q) && l.part < |seeds| && Congruent(l.pos, q, m.width, m.height) &&
              Reach(m, seeds[l.part], l.pos)
    {
      if labels.Home(q) == labels.Home(p) {
        assert m.At(q) == m.At(p);
      } else {
        assert labels.At(q) == g.At(q);
      }
    }
  }

  // ----- Positions stay near the map

  ghost function Labelled(labels: Labels): set<int>
    requires labels.Valid()
  {
    set n | 0 <= n < labels.width * labels.height && labels.At(SeqOfCells(labels.width, labels.height)[n]).Some? :: n
  }

  ghost predicate NearMap(pos: Vec, width: int, height: int, n: int) {
    -n <= pos.x <= width + n && -n <= pos.y <= height + n
  }

  /** No position is further from the map than there are labelled cells. */
  ghost predicate Spread(labels: Labels)
    requires labels.Valid()
  {
    forall p {:trigger labels.At(p)} :: labels.At(p).Some? ==>
      NearMap(labels.At(p).value.pos, labels.width, labels.height, |Labelled(labels)|)
  }

  /** The position was reached by a step from another stored position of the same part, in direction d. */
  ghost predicate ReachedFrom(m: BlockMap, labels: Labels, l: Label, d: Dir)
    requires m.Valid() && labels.Valid()
  {
    var q := Minus(l.pos, Unit(d));
    Joined(m, q, d) && labels.At(q) == Some(Label(l.part, q))
  }

  ghost predicate Stored(labels: Labels, p: Vec)
    requires labels.Valid()
  {
    labels.At(p).Some?
  }

  ghost predicate IsStepped(m: BlockMap, labels: Labels, seeds: seq<Vec>, l: Label)
    requires m.Valid() && labels.Valid()
  {
    l.part < |seeds| && (l.pos == seeds[l.part] || exists d: Dir :: ReachedFrom(m, labels, l, d))
  }

  /** Every stored position but that of a seed was reached by one step from another one of its part. */
  ghost predicate Stepped(m: BlockMap, labels: Labels, seeds: seq<Vec>)
    requires m.Valid() && labels.Valid()
  {
    forall p :: Stored(labels, p) ==> IsStepped(m, labels, seeds, labels.At(p).value)
  }

  lemma ReachedKeeps(m: BlockMap, labels: Labels, l: Label, d: Dir, p: Vec, k: nat)
    requires m.Valid() && labels.Valid() && labels.At(p).None? && ReachedFrom(m, labels, l, d)
    ensures ReachedFrom(m, labels.Set(p, Some(Label(k, p))), l, d)
  {
    hide Joined;
  }

  lemma SteppedOld(m: BlockMap, labels: Labels, seeds: seq<Vec>, more: seq<Vec>, p: Vec, k: nat, l: Label)
    requires m.Valid() && labels.Valid() && labels.At(p).None? && IsStepped(m, labels, seeds, l) && seeds <= more
    ensures IsStepped(m, labels.Set(p, Some(Label(k, p))), more, l)
  {
    hide Joined, ReachedFrom;
    if l.pos != more[l.part] {
      var d: Dir :| ReachedFrom(m, labels, l, d);
      ReachedKeeps(m, labels, l, d, p, k);
    }
  }

  /** One more stored position that is stepped keeps all of them so. */
  lemma SteppedSet(m: BlockMap, labels: Labels, seeds: seq<Vec>, more: seq<Vec>, p: Vec, k: nat)
    requires m.Valid() && labels.Valid() && labels.At(p).None? && Stepped(m, labels, seeds) && seeds <= more
    requires IsStepped(m, labels.Set(p, Some(Label(k, p))), more, Label(k, p))
    ensures Stepped(m, labels.Set(p, Some(Label(k, p))), more)
  {
    hide IsStepped;
    var g := labels.Set(p, Some(Label(k, p)));
    forall q | Stored(g, q)
      ensures IsStepped(m, g, more, g.At(q).value)
    {
      if labels.Home(q) != labels.Home(p) {
        assert g.At(q) == labels.At(q) && Stored(labels, q);
        SteppedOld(m, labels, seeds, more, p, k, labels.At(q).value);
      }
    }
  }

  lemma SteppedMore(m: BlockMap, labels: Labels, seeds: seq<Vec>, cur: Vec, d: Dir, k: nat)
    requires m.Valid() && labels.Valid() && Stepped(m, labels, seeds) && k < |seeds|
    requires labels.At(cur) == Some(Label(k, cur)) && Joined(m, cur, d) && labels.At(Plus(cur, Unit(d))).None?
    ensures var next := Plus(cur, Unit(d)); Stepped(m, labels.Set(next, Some(Label(k, next))), seeds)
  {
    hide Joined, Stepped, Unit;
    var next := Plus(cur, Unit(d));
    assert Minus(next, Unit(d)) == cur;
    assert ReachedFrom(m, labels.Set(next, Some(Label(k, next))), Label(k, next), d);
    SteppedSet(m, labels, seeds, seeds, next, k);
  }

  lemma SteppedSeed(m: BlockMap, labels: Labels, seeds: seq<Vec>, k: nat)
    requires m.Valid() && labels.Valid() && |seeds| == k + 1 && labels.At(seeds[k]).None?
    requires Stepped(m, labels, seeds[..k])
    ensures Stepped(m, labels.Set(seeds[k], Some(Label(k, seeds[k]))), seeds)
  {
    hide Stepped;
    SteppedSet(m, labels, seeds[..k], seeds, seeds[k], k);
  }

  lemma LabelledMore(labels: Labels, p: Vec, l: Label)
    requires labels.Valid() && labels.At(p).None?
    ensures |Labelled(labels.Set(p, Some(l)))| == |Labelled(labels)| + 1
  {
    hide SeqOfCells;
    var g := labels.Set(p, Some(l));
    var h := labels.Home(p);
    AtHome(labels, p);
    CellOfIndex(h, labels.width, labels.height);
    var i := ScanIndex(h, labels.width);
    forall n | 0 <= n < labels.width * labels.height
      ensures n in Labelled(g) <==> n in Labelled(labels) || n == i
    {
      CellsInRange(labels.width, labels.height, n);
    }
    assert i !in Labelled(labels);
    assert Labelled(g) == Labelled(labels) + {i};
  }

  lemma SpreadMore(labels: Labels, p: Vec, k: nat)
    requires labels.Valid() && labels.At(p).None? && Spread(labels)
    requires NearMap(p, labels.width, labels.height, |Labelled(labels)| + 1)
    ensures Spread(labels.Set(p, Some(Label(k, p))))
  {
    var g := labels.Set(p, Some(Label(k, p)));
    LabelledMore(labels, p, Label(k, p));
    hide Labelled;
    forall q {:trigger g.At(q)} | g.At(q).Some?
      ensures NearMap(g.At(q).value.pos, g.width, g.height, |Labelled(g)|)
    {
      if labels.Home(q) != labels.Home(p) { assert g.At(q) == labels.At(q); }
    }
  }

  lemma SpreadNext(labels: Labels, cur: Vec, d: Dir)
    requires labels.Valid() && Spread(labels) && labels.At(cur).Some? && labels.At(cur).value.pos == cur
    ensures NearMap(Plus(cur, Unit(d)), labels.width, labels.height, |Labelled(labels)| + 1)
  {
    hide Labelled;
  }

  lemma {:induction false} RangeCount(s: set<int>, n: nat)
    requires forall v :: v in s ==> 0 <= v < n
    ensures |s| <= n
  {
    if n == 0 {
      assert forall v :: v !in s;
      assert s == {};
    } else {
      RangeCount(s - {n - 1}, n - 1);
    }
  }

  /** So no position is further from the map than the map has cells. */
  lemma SpreadBound(labels: Labels, p: Vec)
    requires labels.Valid() && Spread(labels) && labels.At(p).Some?
    ensures labels.width * labels.height >= 0
    ensures NearMap(labels.At(p).value.pos, labels.width, labels.height, labels.width * labels.height)
  {
    CellOfIndex(labels.Home(p), labels.width, labels.height);
    RangeCount(Labelled(labels), labels.width * labels.height);
  }

  /** What holds while part k is being flooded; left holds the cells still to expand. */
  ghost predicate Flooding(m: BlockMap, labels0: Labels, labels: Labels, k: nat, seeds: seq<Vec>, left: seq<Vec>)
    requires m.Valid()
  {
    && labels0.Valid() && labels.Valid() && labels.width == m.width && labels.height == m.height
    && |seeds| == k + 1
    && Keeps(labels0, labels, k) && Sound(m, labels, seeds) && Spread(labels) && Stepped(m, labels, seeds)
    && (forall j: nat :: j < k ==> Closed(m, labels, j, []))
    && Waiting(labels, k, left) && Closed(m, labels, k, left)
  }

  /** The neighbours of cur in the given directions carry part k wherever they are joined to cur. */
  ghost predicate Served(m: BlockMap, labels: Labels, k: nat, cur: Vec, dirs: seq<Dir>)
    requires m.Valid() && labels.Valid()
  {
    forall j :: 0 <= j < |dirs| && Joined(m, cur, dirs[j]) ==>
      var n := labels.At(Plus(cur, Unit(dirs[j]))); n.Some? && n.value.part == k
  }

  /** Every new label is that of a neighbour joined to cur, in part k. */
  ghost predicate LabelsAround(m: BlockMap, before: Labels, after: Labels, k: nat, cur: Vec)
    requires m.Valid() && before.Valid() && after.Valid()
  {
    forall p {:trigger after.At(p)} :: after.At(p) == before.At(p) ||
      (before.At(p).None? && exists d: Dir :: Joined(m, cur, d) && after.At(p) == Some(Label(k, Plus(cur, Unit(d)))))
  }

  lemma LabelsOneMore(m: BlockMap, before: Labels, after: Labels, k: nat, cur: Vec, d: Dir)
    requires m.Valid() && before.Valid() && after.Valid() && LabelsAround(m, before, after, k, cur)
    requires Joined(m, cur, d) && after.At(Plus(cur, Unit(d))).None?
    ensures var next := Plus(cur, Unit(d)); LabelsAround(m, before, after.Set(next, Some(Label(k, next))), k, cur)
  {
    hide Joined;
    var next := Plus(cur, Unit(d));
    var g := after.Set(next, Some(Label(k, next)));
    forall p {:trigger g.At(p)}
      ensures g.At(p) == before.At(p) ||
              (before.At(p).None? &&
               exists d: Dir :: Joined(m, cur, d) && g.At(p) == Some(Label(k, Plus(cur, Unit(d)))))
    {
      if after.Home(p) == after.Home(next) {
        assert after.At(p) == after.At(next);
        assert before.At(p).None?;
      } else {
        assert g.At(p) == after.At(p);
      }
    }
  }

  lemma FloodSide(m: BlockMap, labels0: Labels, labels: Labels, k: nat, seeds: seq<Vec>, left: seq<Vec>, cur: Vec,
                  d: Dir, dirs: seq<Dir>)
    requires m.Valid() && labels.Valid() && Flooding(m, labels0, labels, k, seeds, left + [cur])
    requires Joined(m, cur, d) && labels.At(Plus(cur, Unit(d))).None? && Served(m, labels, k, cur, dirs)
    ensures var next := Plus(cur, Unit(d)); var g := labels.Set(next, Some(Label(k, next)));
            Flooding(m, labels0, g, k, seeds, left + [next] + [cur]) && Unlabelled(g) < Unlabelled(labels) &&
            Served(m, g, k, cur, dirs + [d])
  {
    hide Joined, Unlabelled, Reach, Sound, Closed, Spread, Stepped;
    var next := Plus(cur, Unit(d));
    SpreadNext(labels, cur, d);
    SpreadMore(labels, next, k);
    SteppedMore(m, labels, seeds, cur, d, k);
    var g := labels.Set(next, Some(Label(k, next)));
    assert labels.At(cur) == Some(Label(k, cur)) by { assert cur in left + [cur]; }
    LabelShrinks(labels, next, Label(k, next));
    FloodReach(m, labels, k, seeds, cur, d);
    SetSound(m, labels, seeds, next, k);
    GrowClosed(m, labels, k, left, cur, next);
    assert Keeps(labels, g, k);
    forall j: nat | j < k ensures Closed(m, g, j, []) { KeepsClosed(m, labels, g, k, j); }
  }

  lemma FloodReach(m: BlockMap, labels: Labels, k: nat, seeds: seq<Vec>, cur: Vec, d: Dir)
    requires m.Valid() && labels.Valid() && labels.width == m.width && labels.height == m.height &&
             Sound(m, labels, seeds)
    requires labels.At(cur) == Some(Label(k, cur)) && Joined(m, cur, d)
    ensures IsWall(m, Plus(cur, Unit(d))) && k < |seeds| && Reach(m, seeds[k], Plus(cur, Unit(d)))
  {
    ReachStep(m, seeds[k], cur, d);
  }

  /** A neighbour that is not joined, or is labelled already, needs nothing. */
  lemma ServedNext(m: BlockMap, labels0: Labels, labels: Labels, k: nat, seeds: seq<Vec>, left: seq<Vec>, cur: Vec,
                   dirs: seq<Dir>, d: Dir)
    requires m.Valid() && Flooding(m, labels0, labels, k, seeds, left + [cur]) && Served(m, labels, k, cur, dirs)
    requires Joined(m, cur, d) ==> labels.At(Plus(cur, Unit(d))).Some?
    ensures Served(m, labels, k, cur, dirs + [d])
  {
    hide Joined, Sound, Spread, Stepped;
    assert labels.At(cur) == Some(Label(k, cur)) by { assert cur in left + [cur]; }
    if Joined(m, cur, d) { NeighbourIsMine(m, labels, seeds, cur, d, k); }
  }

  lemma FloodingValid(m: BlockMap, labels0: Labels, labels: Labels, k: nat, seeds: seq<Vec>, left: seq<Vec>)
    requires m.Valid() && Flooding(m, labels0, labels, k, seeds, left)
    ensures labels.Valid() && labels.width == m.width && labels.height == m.height
  {}

  /** One round of the source's while loop: labels the open neighbours of cur. */
  method Expand(m: BlockMap, labels0: Labels, labels1: Labels, k: nat, ghost seeds: seq<Vec>, left1: seq<Vec>, cur: Vec)
    returns (labels: Labels, left: seq<Vec>)
    requires m.Valid() && Flooding(m, labels0, labels1, k, seeds, left1 + [cur])
    ensures Flooding(m, labels0, labels, k, seeds, left) && labels.Valid() && labels1.Valid()
    ensures LabelsAround(m, labels1, labels, k, cur) && Served(m, labels, k, cur, Ways(BlockAt(m, cur)))
    ensures (labels == labels1 && left == left1) || Unlabelled(labels) < Unlabelled(labels1)
  {
    hide Flooding, Served, Unlabelled, LabelsAround;
    labels, left := labels1, left1;
    FloodingValid(m, labels0, labels1, k, seeds, left1 + [cur]);
    var ways := Ways(BlockAt(m, cur));
    ServedNone(m, labels, k, cur);
    LabelsNone(m, labels, k, cur);
    for i := 0 to |ways|
      invariant labels.Valid() && Flooding(m, labels0, labels, k, seeds, left + [cur])
      invariant Served(m, labels, k, cur, ways[..i]) && LabelsAround(m, labels1, labels, k, cur)
      invariant (labels == labels1 && left == left1) || Unlabelled(labels) < Unlabelled(labels1)
    {
      var d := ways[i];
      assert ways[..i + 1] == ways[..i] + [d];
      var next := Plus(cur, Unit(d));
      if !IsWall(m, next) || Turned(d, 4) !in Ways(BlockAt(m, next)) {
        ServedNext(m, labels0, labels, k, seeds, left, cur, ways[..i], d);
        continue;
      }
      if labels.At(next).None? {
        FloodSide(m, labels0, labels, k, seeds, left, cur, d, ways[..i]);
        LabelsOneMore(m, labels1, labels, k, cur, d);
        left := left + [next];
        labels := labels.Set(next, Some(Label(k, next)));
        continue;
      }
      ServedNext(m, labels0, labels, k, seeds, left, cur, ways[..i], d);
    }
    assert ways[..|ways|] == ways;
    FloodingDone(m, labels0, labels, k, seeds, left, cur);
  }

  lemma LabelsNone(m: BlockMap, labels: Labels, k: nat, cur: Vec)
    requires m.Valid() && labels.Valid()
    ensures LabelsAround(m, labels, labels, k, cur)
  {}

  lemma ServedNone(m: BlockMap, labels: Labels, k: nat, cur: Vec)
    requires m.Valid() && labels.Valid()
    ensures Served(m, labels, k, cur, Ways(BlockAt(m, cur))[..0])
  {}

  lemma FloodingDone(m: BlockMap, labels0: Labels, labels: Labels, k: nat, seeds: seq<Vec>, left: seq<Vec>, cur: Vec)
    requires m.Valid() && labels.Valid() && Flooding(m, labels0, labels, k, seeds, left + [cur])
    requires Served(m, labels, k, cur, Ways(BlockAt(m, cur)))
    ensures Flooding(m, labels0, labels, k, seeds, left)
  {
    hide Closed, Waiting, Served, Sound, Spread, Stepped, Keeps;
    ExpandDone(m, labels, k, left, cur);
  }

  lemma ExpandDone(m: BlockMap, labels: Labels, k: nat, left: seq<Vec>, cur: Vec)
    requires m.Valid() && labels.Valid()
    requires Closed(m, labels, k, left + [cur]) && Waiting(labels, k, left + [cur])
    requires Served(m, labels, k, cur, Ways(BlockAt(m, cur)))
    ensures Closed(m, labels, k, left) && Waiting(labels, k, left)
  {
    forall p, d: Dir {:trigger labels.At(p), Unit(d)} | labels.At(p).Some?
      ensures var l := labels.At(p).value;
        l.part == k && l.pos !in left && Joined(m, l.pos, d) ==>
          var n := labels.At(Plus(l.pos, Unit(d))); n.Some? && n.value.part == k
    {
      var l := labels.At(p).value;
      if l.pos != cur { assert l.pos !in left ==> l.pos !in left + [cur]; }
    }
    forall q | q in left ensures labels.At(q) == Some(Label(k, q)) { assert q in left + [cur]; }
  }

  /** Labels everything joined to the seed of part k. */
  method FloodPart(m: BlockMap, labels0: Labels, k: nat, seed: Vec, ghost seeds: seq<Vec>) returns (labels: Labels)
    requires m.Valid() && labels0.Valid() && labels0.width == m.width && labels0.height == m.height
    requires |seeds| == k + 1 && seeds[k] == seed && m.InRange(seed)
    requires Sound(m, labels0, seeds[..k]) && Spread(labels0) && Stepped(m, labels0, seeds[..k])
    requires forall j: nat :: j < k ==> Closed(m, labels0, j, [])
    requires IsWall(m, seed) && labels0.At(seed).None?
    ensures labels.Valid() && Flooding(m, labels0, labels, k, seeds, [])
  {
    hide Flooding, Unlabelled, Sound, Spread, Stepped, Closed;
    var left := [seed];
    labels := labels0.Set(seed, Some(Label(k, seed)));
    FirstLabel(m, labels0, seeds, k);
    while left != []
      invariant labels.Valid() && Flooding(m, labels0, labels, k, seeds, left)
      decreases Unlabelled(labels), |left|
    {
      var cur := left[|left| - 1];
      assert left == left[..|left| - 1] + [cur];
      left := left[..|left| - 1];
      labels, left := Expand(m, labels0, labels, k, seeds, left, cur);
    }
  }

  lemma FirstLabel(m: BlockMap, labels: Labels, seeds: seq<Vec>, k: nat)
    requires m.Valid() && labels.Valid() && labels.width == m.width && labels.height == m.height
    requires |seeds| == k + 1 && m.InRange(seeds[k]) && IsWall(m, seeds[k]) && labels.At(seeds[k]).None?
    requires Sound(m, labels, seeds[..k]) && Spread(labels) && Stepped(m, labels, seeds[..k])
    requires forall j: nat :: j < k ==> Closed(m, labels, j, [])
    ensures Flooding(m, labels, labels.Set(seeds[k], Some(Label(k, seeds[k]))), k, seeds, [seeds[k]])
  {
    hide Reach, Joined, Spread, Stepped;
    SeedNearMap(labels, seeds[k]);
    SpreadMore(labels, seeds[k], k);
    SteppedSeed(m, labels, seeds, k);
    var g := labels.Set(seeds[k], Some(Label(k, seeds[k])));
    FirstSound(m, labels, seeds, k);
    forall j: nat | j < k ensures Closed(m, g, j, []) { KeepsClosed(m, labels, g, k, j); }
    assert forall p :: labels.At(p).Some? ==> labels.At(p).value.part < k;
  }

  lemma FirstSound(m: BlockMap, labels: Labels, seeds: seq<Vec>, k: nat)
    requires m.Valid() && labels.Valid() && labels.width == m.width && labels.height == m.height
    requires |seeds| == k + 1 && m.InRange(seeds[k]) && IsWall(m, seeds[k]) && labels.At(seeds[k]).None?
    requires Sound(m, labels, seeds[..k])
    ensures Sound(m, labels.Set(seeds[k], Some(Label(k, seeds[k]))), seeds)
  {
    hide Reach;
    var g := labels.Set(seeds[k], Some(Label(k, seeds[k])));
    ReachSelf(m, seeds[k]);
    forall q {:trigger g.At(q)} | g.At(q).Some?
      ensures var l := g.At(q).value;
              IsWall(m, q) && l.part < |seeds| && Congruent(l.pos, q, m.width, m.height) &&
              Reach(m, seeds[l.part], l.pos)
    {
      if labels.Home(q) == labels.Home(seeds[k]) {
        assert m.At(q) == m.At(seeds[k]);
      } else {
        assert labels.At(q) == g.At(q);
      }
    }
  }

  lemma SeedNearMap(labels: Labels, p: Vec)
    requires labels.Valid() && labels.InRange(p)
    ensures NearMap(p, labels.width, labels.height, |Labelled(labels)| + 1)
  {
    hide Labelled;
  }

  lemma GrowClosed(m: BlockMap, labels: Labels, k: nat, left: seq<Vec>, cur: Vec, next: Vec)
    requires m.Valid() && labels.Valid() && labels.At(next).None?
    requires Closed(m, labels, k, left + [cur]) && Waiting(labels, k, left + [cur])
    ensures var g := labels.Set(next, Some(Label(k, next)));
            Closed(m, g, k, left + [next] + [cur]) && Waiting(g, k, left + [next] + [cur])
  {
    var g := labels.Set(next, Some(Label(k, next)));
    forall q | q in left + [next] + [cur]
      ensures g.At(q) == Some(Label(k, q))
    {
      if q in left + [cur] { assert labels.At(q).Some?; }
    }
    forall p, d: Dir {:trigger g.At(p), Unit(d)} | g.At(p).Some?
      ensures var l := g.At(p).value;
        l.part == k && l.pos !in left + [next] + [cur] && Joined(m, l.pos, d) ==>
          var n := g.At(Plus(l.pos, Unit(d))); n.Some? && n.value.part == k
    {
      var l := g.At(p).value;
      if l.part == k && l.pos !in left + [next] + [cur] && Joined(m, l.pos, d) {
        assert g.At(p) == labels.At(p);
        assert l.pos !in left + [cur];
        assert labels.At(Plus(l.pos, Unit(d))).Some?;
      }
    }
  }

  /** What holds when the scan of the cells has come to index n. */
  ghost predicate Scanned(m: BlockMap, labels: Labels, seeds: seq<Vec>, n: int)
    requires m.Valid()
  {
    && labels.Valid() && labels.width == m.width && labels.height == m.height
    && Sound(m, labels, seeds) && Spread(labels) && Stepped(m, labels, seeds) && SeedsFirst(labels, seeds)
    && (forall j: nat :: j < |seeds| ==> Closed(m, labels, j, []))
    && (forall p :: m.InRange(p) && ScanIndex(p, m.width) < n && IsWall(m, p) ==> labels.At(p).Some?)
    && forall j :: 0 <= j < |seeds| ==> ScanIndex(seeds[j], m.width) < n
  }

  lemma ScanSkips(m: BlockMap, labels: Labels, seeds: seq<Vec>, cell: Vec, n: int)
    requires m.Valid() && Scanned(m, labels, seeds, n) && m.InRange(cell) && ScanIndex(cell, m.width) == n
    requires !IsWall(m, cell) || labels.At(cell).Some?
    ensures Scanned(m, labels, seeds, n + 1)
  {
    hide Sound, Spread, Stepped, SeedsFirst, Closed, IsWall;
    forall p | m.InRange(p) && ScanIndex(p, m.width) < n + 1 && IsWall(m, p)
      ensures labels.At(p).Some?
    {
      if ScanIndex(p, m.width) == n { IndexInjective(p, cell, m.width, m.height); }
    }
  }

  lemma IndexInjective(p: Vec, q: Vec, width: int, height: int)
    requires 0 <= p.x < width && 0 <= p.y < height && 0 <= q.x < width && 0 <= q.y < height
    requires ScanIndex(p, width) == ScanIndex(q, width)
    ensures p == q
  {
    CellOfIndex(p, width, height);
    CellOfIndex(q, width, height);
  }

  /** After part k is flooded from a fresh cell the scan can go on. */
  lemma ScanFloods(m: BlockMap, old_: Labels, labels: Labels, seeds: seq<Vec>, cell: Vec, n: int)
    requires m.Valid() && Scanned(m, old_, seeds, n) && m.InRange(cell) && ScanIndex(cell, m.width) == n
    requires Flooding(m, old_, labels, |seeds|, seeds + [cell], [])
    ensures Scanned(m, labels, seeds + [cell], n + 1)
  {
    hide Closed, Spread, Stepped, IsWall, Reach;
    var k, more := |seeds|, seeds + [cell];
    forall p | m.InRange(p) && ScanIndex(p, m.width) < n + 1 && IsWall(m, p)
      ensures labels.At(p).Some?
    {
      if ScanIndex(p, m.width) == n {
        IndexInjective(p, cell, m.width, m.height);
        assert more[k] == cell;
      } else {
        assert old_.At(p).Some?;
      }
    }
    FloodSeedsFirst(m, old_, labels, seeds, cell, n);
  }

  lemma FloodSeedsFirst(m: BlockMap, old_: Labels, labels: Labels, seeds: seq<Vec>, cell: Vec, n: int)
    requires m.Valid() && Scanned(m, old_, seeds, n) && m.InRange(cell) && ScanIndex(cell, m.width) == n
    requires Flooding(m, old_, labels, |seeds|, seeds + [cell], [])
    ensures SeedsFirst(labels, seeds + [cell])
  {
    hide Closed, Spread, Stepped, IsWall, Reach, ScanIndex;
    var k, more := |seeds|, seeds + [cell];
    forall p | labels.InRange(p) && labels.At(p).Some?
      ensures labels.At(p).value.part <= k
      ensures ScanIndex(more[labels.At(p).value.part], m.width) <= ScanIndex(p, m.width)
    {
      if old_.At(p).Some? {
        assert old_.At(p).value.part < k;
      } else {
        assert IsWall(m, p) && labels.At(p).value.part == k;
      }
    }
  }

  lemma ScanStart(m: BlockMap)
    requires m.Valid()
    ensures Scanned(m, Blank(None, m.width, m.height), [], 0)
  {
    forall p | m.InRange(p) ensures ScanIndex(p, m.width) >= 0 { CellOfIndex(p, m.width, m.height); }
  }

  lemma ScanEnd(m: BlockMap, labels: Labels, seeds: seq<Vec>)
    requires m.Valid() && Scanned(m, labels, seeds, m.width * m.height)
    ensures IsPartition(m, labels, seeds)
  {
    hide Sound, Spread, Stepped, SeedsFirst, Closed;
    forall p | IsWall(m, p)
      ensures labels.At(p).Some?
    {
      var h := m.Home(p);
      CellOfIndex(h, m.width, m.height);
      AtHome(m, p);
      AtHome(labels, p);
    }
  }

  lemma ScannedFresh(m: BlockMap, labels: Labels, seeds: seq<Vec>, n: int)
    requires m.Valid() && Scanned(m, labels, seeds, n)
    ensures labels.Valid() && labels.width == m.width && labels.height == m.height && Sound(m, labels, seeds) &&
            Spread(labels) && Stepped(m, labels, seeds)
    ensures forall j: nat :: j < |seeds| ==> Closed(m, labels, j, [])
  {}

  /** poly_partition: the labels, and the number of parts. */
  method PolyPartition(m: BlockMap) returns (labels: Labels, partnum: nat, ghost seeds: seq<Vec>)
    requires m.Valid()
    ensures partnum == |seeds| && IsPartition(m, labels, seeds)
  {
    hide Scanned, Sound, Spread, Stepped, Closed, Flooding, SeqOfCells, IsPartition;
    labels := Blank(None, m.width, m.height);
    partnum, seeds := 0, [];
    var cells := SeqOfCells(m.width, m.height);
    ScanStart(m);
    for n := 0 to |cells|
      invariant labels.Valid() && partnum == |seeds| && Scanned(m, labels, seeds, n)
    {
      var cell := cells[n];
      CellsInRange(m.width, m.height, n);
      if IsWall(m, cell) && labels.At(cell).None? {
        ghost var old_ := labels;
        ScannedFresh(m, labels, seeds, n);
        assert (seeds + [cell])[..partnum] == seeds;
        labels := FloodPart(m, labels, partnum, cell, seeds + [cell]);
        ScanFloods(m, old_, labels, seeds, cell, n);
        seeds := seeds + [cell];
        partnum := partnum + 1;
      } else {
        ScanSkips(m, labels, seeds, cell, n);
      }
    }
    ScanEnd(m, labels, seeds);
  }

  lemma JoinedSamePart(m: BlockMap, labels: Labels, seeds: seq<Vec>, p: Vec, d: Dir)
    requires m.Valid() && IsPartition(m, labels, seeds) && Joined(m, p, d)
    ensures labels.At(p).Some? && labels.At(Plus(p, Unit(d))).Some?
    ensures labels.At(Plus(p, Unit(d))).value.part == labels.At(p).value.part
  {
    hide Spread, Stepped, SeedsFirst, Reach;
    assert IsWall(m, p);
    var l := labels.At(p).value;
    JoinedCongruent(m, l.pos, p, d);
    CongruentPlus(l.pos, p, Unit(d), m.width, m.height);
    assert Closed(m, labels, l.part, []);
  }

  lemma {:induction false} ChainSamePart(m: BlockMap, labels: Labels, seeds: seq<Vec>, path: seq<Vec>, a: Vec, b: Vec)
    requires m.Valid() && IsPartition(m, labels, seeds) && IsWall(m, a) && Chain(m, path, a, b)
    ensures labels.At(a).Some? && labels.At(b).Some? && labels.At(a).value.part == labels.At(b).value.part
    decreases |path|
  {
    if |path| > 1 {
      var n := |path|;
      var e := path[n - 2];
      ChainSamePart(m, labels, seeds, path[..n - 1], a, e);
      assert Adjacent(m, path[n - 2], path[n - 1]);
      var d: Dir :| Joined(m, e, d) && b == Plus(e, Unit(d));
      JoinedSamePart(m, labels, seeds, e, d);
    }
  }

  /** Two wall cells carry the same part number exactly when they are connected on the torus. */
  lemma PartsAreComponents(m: BlockMap, labels: Labels, seeds: seq<Vec>, p: Vec, q: Vec)
    requires m.Valid() && IsPartition(m, labels, seeds) && IsWall(m, p) && IsWall(m, q)
    ensures labels.At(p).value.part == labels.At(q).value.part <==> Connected(m, p, q)
  {
    var a, b := labels.At(p).value, labels.At(q).value;
    if Connected(m, p, q) {
      var c :| Reach(m, p, c) && Congruent(c, q, m.width, m.height);
      var path :| Chain(m, path, p, c);
      ChainSamePart(m, labels, seeds, path, p, c);
      assert labels.At(c) == labels.At(q);
    }
    if a.part == b.part {
      var seed := seeds[a.part];
      ReachBack(m, seed, a.pos);
      ReachTrans(m, a.pos, seed, b.pos);
      var path :| Chain(m, path, a.pos, b.pos);
      ChainShift(m, path, a.pos, b.pos, p);
      var c :| Reach(m, p, c) && Congruent(c, b.pos, m.width, m.height);
      assert Congruent(c, q, m.width, m.height);
    }
  }
}
