/** The border edges of one part, taken together, lead nowhere. */
module PartBorder {
  import opened Torus
  import opened Blocks
  import opened Partition
  import opened Outline
  import opened EdgeCover
  import opened GridSums

  ghost predicate PartAt(labels: Labels, c: Vec, k: nat)
    requires labels.Valid()
  {
    labels.At(c).Some? && labels.At(c).value.part == k
  }

  /** Corners at which direction d is a border edge of part k. */
  ghost function EdgeIn(m: BlockMap, labels: Labels, k: nat, d: Dir): Vec -> int
    requires m.Valid() && labels.Valid()
  {
    (v: Vec) => if Borders(m, v, d) && InPart(labels, State(v, d), k) then 1 else 0
  }

  /** Blocks of part k that fill sector d. */
  ghost function BlockIn(m: BlockMap, labels: Labels, k: nat, d: Dir): Vec -> int
    requires m.Valid() && labels.Valid()
  {
    (c: Vec) => if Fills(BlockAt(m, c), d) && PartAt(labels, c, k) then 1 else 0
  }

  /** The block in which sector d of a corner lies. */
  function SectorOff(d: Dir): Vec { SectorCell(Vec(0, 0), d) }

  /** Corners whose sector d is filled by part k. */
  ghost function SectorIn(m: BlockMap, labels: Labels, k: nat, d: Dir): Vec -> int
    requires m.Valid() && labels.Valid()
  {
    Shifted(BlockIn(m, labels, k, d), SectorOff(d))
  }

  lemma SectorIs(m: BlockMap, labels: Labels, k: nat, v: Vec, d: Dir)
    requires m.Valid() && labels.Valid()
    ensures SectorIn(m, labels, k, d)(v) == if Solid(m, v, d) && PartAt(labels, SectorCell(v, d), k) then 1 else 0
  {
    hide Fills, PartAt, BlockAt;
    assert Plus(v, SectorOff(d)) == SectorCell(v, d);
  }

  lemma EdgeOut(m: BlockMap, labels: Labels, k: nat, v: Vec, d: Dir)
    requires m.Valid() && labels.Valid()
    ensures EdgeIn(m, labels, k, d)(v) ==
            if Solid(m, v, Turned(d, 1)) && !Solid(m, v, d) && PartAt(labels, SectorCell(v, Turned(d, 1)), k)
            then 1 else 0
  {
    hide Solid, SectorCell;
  }

  /** The edge the other way has the sides exchanged. */
  lemma EdgeBack(m: BlockMap, labels: Labels, k: nat, v: Vec, d: Dir)
    requires m.Valid() && labels.Valid()
    ensures EdgeIn(m, labels, k, Turned(d, 4))(Plus(v, Unit(d))) ==
            if Solid(m, v, d) && !Solid(m, v, Turned(d, 1)) && PartAt(labels, SectorCell(v, d), k) then 1 else 0
  {
    var w, b := Plus(v, Unit(d)), Turned(d, 4);
    BackHome(v, d);
    EdgeSides(m, w, b);
    LeftCellAhead(m, State(w, b));
    hide Solid, SectorCell, Unit, Turned;
  }

  lemma BackHome(v: Vec, d: Dir)
    ensures Plus(Plus(v, Unit(d)), Unit(Turned(d, 4))) == v
    ensures Turned(Turned(d, 4), 4) == d && Turned(Turned(d, 4), 5) == Turned(d, 1)
  {}

  /** An edge of the part against the edge the other way: the part lies on one side more than on the other. */
  lemma EdgeBalance(m: BlockMap, labels: Labels, seeds: seq<Vec>, k: nat, v: Vec, d: Dir)
    requires m.Valid() && labels.Valid() && IsPartition(m, labels, seeds)
    ensures EdgeIn(m, labels, k, d)(v) + SectorIn(m, labels, k, d)(v) ==
            EdgeIn(m, labels, k, Turned(d, 4))(Plus(v, Unit(d))) + SectorIn(m, labels, k, Turned(d, 1))(v)
  {
    hide IsPartition, Solid, SectorCell, SectorIn, EdgeIn, Unit, Turned;
    EdgeOut(m, labels, k, v, d);
    EdgeBack(m, labels, k, v, d);
    SectorIs(m, labels, k, v, d);
    SectorIs(m, labels, k, v, Turned(d, 1));
    if Solid(m, v, d) && Solid(m, v, Turned(d, 1)) { SectorsJoin(m, labels, seeds, v, d); }
  }

  lemma PeriodicSums(m: BlockMap, labels: Labels, k: nat, d: Dir)
    requires m.Valid() && labels.Valid() && labels.width == m.width && labels.height == m.height
    ensures Periodic(EdgeIn(m, labels, k, d), m.width, m.height) &&
            Periodic(BlockIn(m, labels, k, d), m.width, m.height)
  {
    forall p, q | Congruent(p, q, m.width, m.height)
      ensures EdgeIn(m, labels, k, d)(p) == EdgeIn(m, labels, k, d)(q)
      ensures BlockIn(m, labels, k, d)(p) == BlockIn(m, labels, k, d)(q)
    {
      hide Borders, Fills, SectorCell;
      BordersHome(m, p, d);
      BordersHome(m, q, d);
      LabelHome(m, labels, p, Turned(d, 1));
      LabelHome(m, labels, q, Turned(d, 1));
    }
  }

  ghost function Edges(m: BlockMap, labels: Labels, k: nat, d: Dir): int
    requires m.Valid() && labels.Valid()
  {
    GridSum(EdgeIn(m, labels, k, d), m.width, m.height)
  }

  ghost function Filled(m: BlockMap, labels: Labels, k: nat, d: Dir): int
    requires m.Valid() && labels.Valid()
  {
    GridSum(BlockIn(m, labels, k, d), m.width, m.height)
  }

  lemma SectorOffShort(d: Dir)
    ensures var u := SectorOff(d); -1 <= u.x <= 1 && -1 <= u.y <= 1
  {}

  lemma OppositeEdges(m: BlockMap, labels: Labels, seeds: seq<Vec>, k: nat, d: Dir)
    requires m.Valid() && labels.Valid() && IsPartition(m, labels, seeds)
    ensures Edges(m, labels, k, d) - Edges(m, labels, k, Turned(d, 4)) ==
            Filled(m, labels, k, Turned(d, 1)) - Filled(m, labels, k, d)
  {
    var e, s, e', s' := EdgeIn(m, labels, k, d), SectorIn(m, labels, k, d), EdgeIn(m, labels, k, Turned(d, 4)),
      SectorIn(m, labels, k, Turned(d, 1));
    var u, h := Unit(d), (v: Vec) => e(v) + s(v);
    forall v ensures e(v) + s(v) == Shifted(e', u)(v) + s'(v) { EdgeBalance(m, labels, seeds, k, v, d); }
    assert labels.width == m.width && labels.height == m.height;
    PeriodicSums(m, labels, k, d);
    PeriodicSums(m, labels, k, Turned(d, 1));
    PeriodicSums(m, labels, k, Turned(d, 4));
    UnitSmall(d);
    SectorOffShort(d);
    SectorOffShort(Turned(d, 1));
    hide IsPartition, GridSum, Periodic, EdgeIn, BlockIn, SectorOff, Unit;
    GridAdds(e, s, h, m.width, m.height);
    GridAdds(Shifted(e', u), s', h, m.width, m.height);
    ShiftSum(e', u, m.width, m.height);
    ShiftSum(BlockIn(m, labels, k, d), SectorOff(d), m.width, m.height);
    ShiftSum(BlockIn(m, labels, k, Turned(d, 1)), SectorOff(Turned(d, 1)), m.width, m.height);
  }

  lemma UnitSmall(d: Dir)
    ensures -1 <= Unit(d).x <= 1 && -1 <= Unit(d).y <= 1
  {}

  /** Each block fills as many sectors of the one kind as of the other. */
  lemma BlockBalance(m: BlockMap, labels: Labels, k: nat)
    requires m.Valid() && labels.Valid()
    ensures Filled(m, labels, k, 1) == Filled(m, labels, k, 4)
    ensures Filled(m, labels, k, 2) + Filled(m, labels, k, 3) == Filled(m, labels, k, 0) + Filled(m, labels, k, 4)
  {
    var b0, b1, b2, b3, b4 := BlockIn(m, labels, k, 0), BlockIn(m, labels, k, 1), BlockIn(m, labels, k, 2),
      BlockIn(m, labels, k, 3), BlockIn(m, labels, k, 4);
    var h := (c: Vec) => b2(c) + b3(c);
    forall c ensures b1(c) == b4(c) && b2(c) + b3(c) == b0(c) + b4(c) { hide BlockAt, PartAt; }
    hide BlockIn, GridSum;
    GridSame(b1, b4, m.width, m.height);
    GridAdds(b2, b3, h, m.width, m.height);
    GridAdds(b0, b4, h, m.width, m.height);
  }

  /** The sum of a unit step for every item counted by direction. */
  function Resultant(c: Dir -> int): Vec {
    Vec(c(0) + c(1) - c(3) - c(4) - c(5) + c(7), c(5) + c(6) + c(7) - c(1) - c(2) - c(3))
  }

  ghost function EdgeCounts(m: BlockMap, labels: Labels, k: nat): Dir -> int
    requires m.Valid() && labels.Valid()
  {
    (d: Dir) => Edges(m, labels, k, d)
  }

  /** All border edges of a part together cancel. */
  lemma BorderCancels(m: BlockMap, labels: Labels, seeds: seq<Vec>, k: nat)
    requires m.Valid() && labels.Valid() && IsPartition(m, labels, seeds)
    ensures Resultant(EdgeCounts(m, labels, k)) == Vec(0, 0)
  {
    hide IsPartition, Edges, Filled;
    OppositeEdges(m, labels, seeds, k, 0);
    OppositeEdges(m, labels, seeds, k, 1);
    OppositeEdges(m, labels, seeds, k, 2);
    OppositeEdges(m, labels, seeds, k, 3);
    BlockBalance(m, labels, k);
  }
}
