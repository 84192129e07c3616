/** What the smoothing tables of the Round button mean for the sides of blocks, as the map converter sees them. */
module RoundingSides {
  import opened Torus
  import opened Rounding
  import Blocks

  /** The neighbour of the middle cell in a direction. */
  function Neighbour(b: Block, d: Dir): char {
    match d
    case 0 => b.right
    case 1 => b.ru
    case 2 => b.up
    case 3 => b.lu
    case 4 => b.left
    case 5 => b.ld
    case 6 => b.down
    case _ => b.rd
  }

  /** The icon fills the side of its cell in an even direction, or the tip of its corner in an odd one. */
  predicate Reaches(c: char, d: Dir) {
    var b := Blocks.BlockOf(c);
    if d % 2 == 0 then d in Blocks.Ways(b) else Blocks.Fills(b, Turned(d, 4)) || Blocks.Fills(b, Turned(d, 5))
  }

  /** The neighbour in direction d fills what it shares with the middle cell. */
  predicate Beside(b: Block, d: Dir) { Reaches(Neighbour(b, d), Turned(d, 4)) }

  predicate IsSide(d: Dir) { d % 2 == 0 }

  /** Walls on two opposite sides of the middle cell. */
  predicate Between(b: Block) { (Beside(b, 0) && Beside(b, 4)) || (Beside(b, 2) && Beside(b, 6)) }

  /** Walls on exactly two sides, next to each other: those beside corner e. */
  predicate Cornered(b: Block, e: Dir) {
    !IsSide(e) && !Between(b) && Beside(b, Turned(e, 1)) && Beside(b, Turned(e, -1))
  }

  /** A half block that fills exactly the sides at which the middle cell meets walls. */
  predicate Fitting(c: char, b: Block) {
    Half(c) && forall d: Dir :: IsSide(d) ==> (Reaches(c, d) <==> Beside(b, d))
  }

  /** The lookup tables tell the sides and corners that the converter's blocks fill. */
  lemma FilledIsBeside(b: Block)
    ensures UpFilled(b) == Beside(b, 2) && DownFilled(b) == Beside(b, 6)
    ensures LeftFilled(b) == Beside(b, 4) && RightFilled(b) == Beside(b, 0)
    ensures LuFilled(b) == Beside(b, 3) && RuFilled(b) == Beside(b, 1)
    ensures LdFilled(b) == Beside(b, 5) && RdFilled(b) == Beside(b, 7)
  {}

  lemma CorneredIs(b: Block)
    ensures Cornered(b, 1) <==> UpFilled(b) && RightFilled(b) && !LeftFilled(b) && !DownFilled(b)
    ensures Cornered(b, 3) <==> UpFilled(b) && LeftFilled(b) && !RightFilled(b) && !DownFilled(b)
    ensures Cornered(b, 5) <==> DownFilled(b) && LeftFilled(b) && !RightFilled(b) && !UpFilled(b)
    ensures Cornered(b, 7) <==> DownFilled(b) && RightFilled(b) && !LeftFilled(b) && !UpFilled(b)
  {
    FilledIsBeside(b);
    hide UpFilled, LeftFilled, DownFilled, RightFilled, Beside;
  }

  /** Stages 1 and 2 make a space or a half block full between walls and fit it into a corner of walls. */
  lemma ClosedFits(b: Block, stage: int)
    requires stage == 1 || stage == 2
    ensures var c, open := Smooth(stage, b), if stage == 1 then b.mid == ' ' else Half(b.mid);
            if open && Between(b) then c == 'x'
            else if open && exists e :: Cornered(b, e) then Fitting(c, b)
            else c == b.mid
  {
    FilledIsBeside(b);
    hide UpFilled, LeftFilled, DownFilled, RightFilled, Beside, Corner, Lonely;
    CorneredIs(b);
  }

  /** Stages 3 and 5 fill a half block up when a wall stands on a side it leaves open. */
  lemma FilledUp(b: Block, stage: int)
    requires stage == 3 || stage == 5
    ensures Half(b.mid) && (exists d :: IsSide(d) && Beside(b, d) && !Reaches(b.mid, d)) ==> Smooth(stage, b) == 'x'
    ensures !Half(b.mid) || (forall d :: IsSide(d) && Beside(b, d) ==> Reaches(b.mid, d)) ==>
              Smooth(stage, b) == b.mid
  {
    FilledIsBeside(b);
    hide UpFilled, LeftFilled, DownFilled, RightFilled, Beside, Closed, Corner, Lonely;
    assert IsSide(0) && IsSide(2) && IsSide(4) && IsSide(6);
  }

  /** Stage 4 fills a half block up when a side it fills meets no wall. */
  lemma BackFilled(b: Block)
    ensures Half(b.mid) && (exists d :: IsSide(d) && Reaches(b.mid, d) && !Beside(b, d)) ==> Smooth(4, b) == 'x'
    ensures !Half(b.mid) || (forall d :: IsSide(d) && Reaches(b.mid, d) ==> Beside(b, d)) ==> Smooth(4, b) == b.mid
  {
    FilledIsBeside(b);
    hide UpFilled, LeftFilled, DownFilled, RightFilled, Beside, Closed, Corner, Lonely;
    assert IsSide(0) && IsSide(2) && IsSide(4) && IsSide(6);
  }

  /** Beside corner e walls, no wall at the far corner, and at the other two corners at least one or none. */
  predicate Cuttable(b: Block, e: Dir, flanked: bool) {
    Cornered(b, e) && !Beside(b, Turned(e, 4)) && (Beside(b, Turned(e, 2)) || Beside(b, Turned(e, -2))) == flanked
  }

  /** Stages 6 and 7 cut a full block down to a fitting half where that is possible. */
  lemma CutDown(b: Block, flanked: bool)
    ensures var c := Smooth(if flanked then 7 else 6, b);
            if b.mid == 'x' && (exists e :: Cuttable(b, e, flanked)) then Fitting(c, b) else c == b.mid
  {
    FilledIsBeside(b);
    hide UpFilled, LeftFilled, DownFilled, RightFilled, LuFilled, LdFilled, RdFilled, RuFilled, Beside, Closed, Lonely;
    CorneredIs(b);
    assert Cuttable(b, 1, flanked) <==>
           Cornered(b, 1) && !LdFilled(b) && (LuFilled(b) || RdFilled(b)) == flanked;
    assert Cuttable(b, 3, flanked) <==>
           Cornered(b, 3) && !RdFilled(b) && (LdFilled(b) || RuFilled(b)) == flanked;
    assert Cuttable(b, 5, flanked) <==>
           Cornered(b, 5) && !RuFilled(b) && (LuFilled(b) || RdFilled(b)) == flanked;
    assert Cuttable(b, 7, flanked) <==>
           Cornered(b, 7) && !LuFilled(b) && (LdFilled(b) || RuFilled(b)) == flanked;
  }

  /** Stage 8 removes a full block with a wall on at most one side. */
  lemma Removed(b: Block)
    ensures var c := Smooth(8, b);
            if b.mid == 'x' && !Between(b) && (forall e :: !Cornered(b, e)) then c == ' ' else c == b.mid
  {
    FilledIsBeside(b);
    hide UpFilled, LeftFilled, DownFilled, RightFilled, Beside, Closed, Corner;
    CorneredIs(b);
  }
}
