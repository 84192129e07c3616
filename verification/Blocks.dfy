/** Block maps: which eighth-turn sectors around a grid corner are solid. */
module Blocks {
  import opened Torus

  /** What a map character means for the outline; fuel counts as a full block. */
  datatype Block = Open | Full | UpLeft | UpRight | DownLeft | DownRight

  function BlockOf(c: char): Block {
    match c
    case 'x' => Full
    case '#' => Full
    case 's' => UpLeft
    case 'a' => UpRight
    case 'w' => DownLeft
    case 'q' => DownRight
    case _ => Open
  }

  type BlockMap = Grid<char>

  function BlockAt(m: BlockMap, p: Vec): Block
    requires m.Valid()
  {
    BlockOf(m.At(p))
  }

  predicate IsWall(m: BlockMap, p: Vec)
    requires m.Valid()
  {
    BlockAt(m, p) != Open
  }

  /** The sides of a block through which it can touch another block, in scanning order. */
  function Ways(b: Block): seq<Dir> {
    match b
    case Open => []
    case Full => [0, 2, 4, 6]
    case UpRight => [0, 2]
    case UpLeft => [2, 4]
    case DownLeft => [4, 6]
    case DownRight => [6, 0]
  }

  /** Corner v is the top left corner of cell v; its sector d lies clockwise of direction d. */
  function SectorCell(v: Vec, d: Dir): Vec {
    if d == 0 || d == 7 then v
    else if d <= 2 then Plus(v, Unit(2))
    else if d <= 4 then Plus(v, Unit(3))
    else Plus(v, Unit(4))
  }

  /** Whether a block fills the sector clockwise of direction d at the corner of the block where that sector lies. */
  predicate Fills(b: Block, d: Dir) {
    b == Full ||
    match d
    case 0 => b == UpLeft || b == UpRight
    case 1 => b == DownLeft || b == DownRight
    case 2 => b == UpLeft || b == DownLeft
    case 3 => b == UpRight || b == DownRight
    case 4 => b == DownLeft || b == DownRight
    case 5 => b == UpRight || b == UpLeft
    case 6 => b == DownRight || b == UpRight
    case _ => b == DownLeft || b == UpLeft
  }

  /** The ways out of a block are the sides it fills: right, top, left and bottom. */
  lemma WaysFilled(b: Block, d: Dir)
    ensures d in Ways(b) <==>
            match d
            case 0 => Fills(b, 6)
            case 2 => Fills(b, 0)
            case 4 => Fills(b, 7)
            case 6 => Fills(b, 1)
            case _ => false
  {}

  lemma NoWaysOpen(b: Block)
    requires Ways(b) != []
    ensures b != Open
  {}

  /** The source's noedge: is the sector clockwise of direction d at corner v solid? */
  predicate Solid(m: BlockMap, v: Vec, d: Dir)
    requires m.Valid()
  {
    Fills(BlockAt(m, SectorCell(v, d)), d)
  }

  lemma SolidHome(m: BlockMap, v: Vec, d: Dir)
    requires m.Valid()
    ensures Solid(m, m.Home(v), d) == Solid(m, v, d)
  {
    var off := Minus(SectorCell(v, d), v);
    assert SectorCell(v, d) == Plus(v, off);
    assert SectorCell(m.Home(v), d) == Plus(m.Home(v), off);
    WrapPlus(v, off, m.width, m.height);
    AtHome(m, Plus(v, off));
    AtHome(m, Plus(m.Home(v), off));
  }
}
