/** Parts without outline: a part has none exactly when full blocks cover the whole map. */
module Borderless {
  import opened Torus
  import opened Blocks
  import opened Partition
  import opened Outline
  import opened EdgeCover
  import opened Starts
  import opened FindEdges
  import opened RowScan
  import opened PartBorder

  ghost predicate AllFull(m: BlockMap)
    requires m.Valid()
  {
    forall p :: BlockAt(m, p) == Full
  }

  ghost predicate NoBorder(m: BlockMap, labels: Labels, k: nat)
    requires m.Valid() && labels.Valid()
  {
    forall s :: Boundary(m, s) ==> !InPart(labels, s, k)
  }

  lemma PartWall(m: BlockMap, labels: Labels, seeds: seq<Vec>, k: nat, c: Vec)
    requires m.Valid() && labels.Valid() && IsPartition(m, labels, seeds) && PartAt(labels, c, k)
    ensures IsWall(m, c)
  {
    hide Spread, Stepped, SeedsFirst, Reach, Closed;
  }

  /** A block that starts an outline has a border edge. */
  lemma StartBorder(m: BlockMap, labels: Labels, k: nat, c: Vec) returns (s: State)
    requires m.Valid() && labels.Valid() && labels.width == m.width && labels.height == m.height
    requires PartAt(labels, c, k) && StartOf(m, c).Some?
    ensures Boundary(m, s) && InPart(labels, s, k)
  {
    hide InPart, Borders, StartOf;
    var start := StartOf(m, c).value;
    StartBorders(m, c);
    StartStateIs(m, c);
    CornerInPart(m, labels, c, Plus(c, start.off), start.d);
    BordersHome(m, Plus(c, start.off), start.d);
    s := State(m.Home(Plus(c, start.off)), start.d);
  }

  /** So has a full block with open space above. */
  lemma TopBorder(m: BlockMap, labels: Labels, k: nat, c: Vec) returns (s: State)
    requires m.Valid() && labels.Valid() && labels.width == m.width && labels.height == m.height
    requires PartAt(labels, c, k) && BlockAt(m, c) == Full && !Solid(m, Plus(c, Vec(1, 0)), 4)
    ensures Boundary(m, s) && InPart(labels, s, k)
  {
    var v := Plus(c, Vec(1, 0));
    assert SectorCell(v, 5) == c;
    assert Borders(m, v, 4);
    hide InPart, Borders, Solid;
    BordersHome(m, v, 4);
    CornerInPart(m, labels, c, v, 4);
    s := State(m.Home(v), 4);
  }

  lemma LeftJoined(m: BlockMap, c: Vec)
    requires m.Valid() && IsWall(m, c) && StartOf(m, c).None?
    ensures BlockAt(m, c) == Full && Joined(m, c, 4)
  {}

  lemma UpJoined(m: BlockMap, c: Vec)
    requires m.Valid() && BlockAt(m, c) == Full && Solid(m, Plus(c, Vec(1, 0)), 4)
    ensures Joined(m, c, 2)
  {
    assert SectorCell(Plus(c, Vec(1, 0)), 4) == Plus(c, Unit(2));
  }

  lemma JoinedToo(m: BlockMap, labels: Labels, seeds: seq<Vec>, k: nat, c: Vec, d: Dir)
    requires m.Valid() && labels.Valid() && IsPartition(m, labels, seeds) && PartAt(labels, c, k) && Joined(m, c, d)
    ensures PartAt(labels, Plus(c, Unit(d)), k)
  {
    hide IsPartition, Joined;
    JoinedSamePart(m, labels, seeds, c, d);
  }

  /** Without border, the blocks of a part are full and so is what lies left of them. */
  lemma LeftToo(m: BlockMap, labels: Labels, seeds: seq<Vec>, k: nat, c: Vec)
    requires m.Valid() && labels.Valid() && IsPartition(m, labels, seeds) && NoBorder(m, labels, k) &&
             PartAt(labels, c, k)
    ensures BlockAt(m, c) == Full && PartAt(labels, Plus(c, Unit(4)), k)
  {
    PartitionSize(m, labels, seeds);
    hide IsPartition, PartAt, StartOf, BlockAt, Joined, IsWall, Boundary, InPart;
    PartWall(m, labels, seeds, k, c);
    if StartOf(m, c).Some? { var s := StartBorder(m, labels, k, c); }
    LeftJoined(m, c);
    JoinedToo(m, labels, seeds, k, c, 4);
  }

  /** And what lies above them. */
  lemma UpToo(m: BlockMap, labels: Labels, seeds: seq<Vec>, k: nat, c: Vec)
    requires m.Valid() && labels.Valid() && IsPartition(m, labels, seeds) && NoBorder(m, labels, k) &&
             PartAt(labels, c, k)
    requires BlockAt(m, c) == Full
    ensures PartAt(labels, Plus(c, Unit(2)), k)
  {
    PartitionSize(m, labels, seeds);
    hide IsPartition, PartAt, BlockAt, Joined, Solid, Boundary, InPart;
    if !Solid(m, Plus(c, Vec(1, 0)), 4) { var s := TopBorder(m, labels, k, c); }
    UpJoined(m, c);
    JoinedToo(m, labels, seeds, k, c, 2);
  }

  lemma {:induction false} Covered(m: BlockMap, labels: Labels, seeds: seq<Vec>, k: nat, c: Vec, x: nat, y: nat)
    requires m.Valid() && labels.Valid() && IsPartition(m, labels, seeds) && NoBorder(m, labels, k) &&
             PartAt(labels, c, k)
    ensures PartAt(labels, Vec(c.x - x, c.y - y), k)
    decreases x + y
  {
    hide IsPartition, NoBorder, PartAt;
    if x > 0 {
      Covered(m, labels, seeds, k, c, x - 1, y);
      LeftToo(m, labels, seeds, k, Vec(c.x - (x - 1), c.y - y));
    } else if y > 0 {
      Covered(m, labels, seeds, k, c, x, y - 1);
      LeftToo(m, labels, seeds, k, Vec(c.x - x, c.y - (y - 1)));
      UpToo(m, labels, seeds, k, Vec(c.x - x, c.y - (y - 1)));
    }
  }

  lemma SeedAt(m: BlockMap, labels: Labels, seeds: seq<Vec>, k: nat)
    requires m.Valid() && labels.Valid() && IsPartition(m, labels, seeds) && k < |seeds|
    ensures PartAt(labels, seeds[k], k) && m.InRange(seeds[k])
  {
    hide Spread, Stepped, SeedsFirst, Reach, Closed;
  }

  lemma StepsBack(c: int, q: int, n: int) returns (x: nat)
    requires 0 <= c < n && 0 <= q < n
    ensures (c - x) % n == q
  {
    x := if q <= c then c - q else c - q + n;
    if q <= c { ModUnique(c - x, n, 0, q); } else { ModUnique(c - x, n, -1, q); }
  }

  lemma PlaceBack(m: BlockMap, c: Vec, p: Vec) returns (x: nat, y: nat)
    requires m.Valid() && m.InRange(c)
    ensures Congruent(Vec(c.x - x, c.y - y), p, m.width, m.height)
  {
    x := StepsBack(c.x, p.x % m.width, m.width);
    y := StepsBack(c.y, p.y % m.height, m.height);
  }

  /** A part without border covers the whole map. */
  lemma NoBorderFull(m: BlockMap, labels: Labels, seeds: seq<Vec>, k: nat, p: Vec)
    requires m.Valid() && labels.Valid() && IsPartition(m, labels, seeds) && k < |seeds| && NoBorder(m, labels, k)
    ensures BlockAt(m, p) == Full
  {
    hide IsPartition, NoBorder, PartAt, BlockAt, Congruent;
    var c := seeds[k];
    SeedAt(m, labels, seeds, k);
    var x, y := PlaceBack(m, c, p);
    Covered(m, labels, seeds, k, c, x, y);
    LeftToo(m, labels, seeds, k, Vec(c.x - x, c.y - y));
    SameBlock(m, Vec(c.x - x, c.y - y), p);
  }

  /** A part has no border exactly when all blocks of the map are full. */
  lemma NoBorderExactly(m: BlockMap, labels: Labels, seeds: seq<Vec>, k: nat)
    requires m.Valid() && labels.Valid() && IsPartition(m, labels, seeds) && k < |seeds|
    ensures NoBorder(m, labels, k) <==> AllFull(m)
  {
    hide IsPartition, InPart;
    if NoBorder(m, labels, k) {
      forall p ensures BlockAt(m, p) == Full { NoBorderFull(m, labels, seeds, k, p); }
    }
    if AllFull(m) {
      forall s | Boundary(m, s) ensures !InPart(labels, s, k) {
        assert BlockAt(m, SectorCell(s.v, s.d)) == Full;
      }
    }
  }
}
