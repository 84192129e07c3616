/** The smoothing tables of the Round button and what a press of it can do. */
module Rounding {
  import opened MapLog

  /** A cell with its eight neighbours. */
  datatype Block = Block(lu: char, up: char, ru: char, left: char, mid: char, right: char, ld: char, down: char,
    rd: char)

  // 's' fills the upper left half of a cell, 'w' the lower left, 'a' the upper right, 'q' the lower right half;
  // 'x' is a full block, '#' fuel.

  predicate Full(c: char) { c == 'x' || c == '#' }
  predicate UpFilled(b: Block) { Full(b.up) || b.up == 'q' || b.up == 'w' }
  predicate LeftFilled(b: Block) { Full(b.left) || b.left == 'a' || b.left == 'q' }
  predicate DownFilled(b: Block) { Full(b.down) || b.down == 'a' || b.down == 's' }
  predicate RightFilled(b: Block) { Full(b.right) || b.right == 'w' || b.right == 's' }
  predicate LuFilled(b: Block) { Full(b.lu) || b.lu == 'w' || b.lu == 'q' || b.lu == 'a' }
  predicate LdFilled(b: Block) { Full(b.ld) || b.ld == 's' || b.ld == 'a' || b.ld == 'q' }
  predicate RdFilled(b: Block) { Full(b.rd) || b.rd == 'a' || b.rd == 's' || b.rd == 'w' }
  predicate RuFilled(b: Block) { Full(b.ru) || b.ru == 'q' || b.ru == 'w' || b.ru == 's' }

  predicate Half(c: char) { c == 'q' || c == 'a' || c == 'w' || c == 's' }

  /** Stages 1 and 2: close the cell between filled sides. */
  function Closed(b: Block): char {
    match (UpFilled(b), LeftFilled(b), DownFilled(b), RightFilled(b))
    case (true, true, true, true) => 'x'
    case (true, true, true, false) => 'x'
    case (true, true, false, true) => 'x'
    case (true, false, true, true) => 'x'
    case (false, true, true, true) => 'x'
    case (true, false, true, false) => 'x'
    case (false, true, false, true) => 'x'
    case (true, true, false, false) => 's'
    case (true, false, false, true) => 'a'
    case (false, false, true, true) => 'q'
    case (false, true, true, false) => 'w'
    case _ => b.mid
  }

  /** What a stage makes of the middle of a block. */
  function Smooth(stage: int, b: Block): char {
    match stage
    case 1 => if b.mid == ' ' then Closed(b) else b.mid
    case 2 => if Half(b.mid) then Closed(b) else b.mid
    case 3 => (
      match b.mid
      case 's' => if RightFilled(b) || DownFilled(b) then 'x' else b.mid
      case 'w' => if RightFilled(b) || UpFilled(b) then 'x' else b.mid
      case 'a' => if LeftFilled(b) || DownFilled(b) then 'x' else b.mid
      case 'q' => if LeftFilled(b) || UpFilled(b) then 'x' else b.mid
      case _ => b.mid
    )
    case 4 => (
      match b.mid
      case 'q' => if !RightFilled(b) || !DownFilled(b) then 'x' else b.mid
      case 'a' => if !RightFilled(b) || !UpFilled(b) then 'x' else b.mid
      case 'w' => if !LeftFilled(b) || !DownFilled(b) then 'x' else b.mid
      case 's' => if !LeftFilled(b) || !UpFilled(b) then 'x' else b.mid
      case _ => b.mid
    )
    case 5 => (
      match b.mid
      case 'q' => if LeftFilled(b) || UpFilled(b) then 'x' else b.mid
      case 'a' => if LeftFilled(b) || DownFilled(b) then 'x' else b.mid
      case 'w' => if RightFilled(b) || UpFilled(b) then 'x' else b.mid
      case 's' => if RightFilled(b) || DownFilled(b) then 'x' else b.mid
      case _ => b.mid
    )
    case 6 => if b.mid == 'x' then Corner(b, false) else b.mid
    case 7 => if b.mid == 'x' then Corner(b, true) else b.mid
    case 8 => if b.mid == 'x' && Lonely(b) then ' ' else b.mid
    case _ => b.mid
  }

  /** Stages 6 and 7: two adjacent sides filled, the far corner free, the diagonal corners free or not both free. */
  function Corner(b: Block, flanked: bool): char {
    match (UpFilled(b), LeftFilled(b), DownFilled(b), RightFilled(b))
    case (false, false, true, true) => if !LuFilled(b) && (LdFilled(b) || RuFilled(b)) == flanked then 'q' else b.mid
    case (true, false, false, true) => if !LdFilled(b) && (LuFilled(b) || RdFilled(b)) == flanked then 'a' else b.mid
    case (false, true, true, false) => if !RuFilled(b) && (LuFilled(b) || RdFilled(b)) == flanked then 'w' else b.mid
    case (true, true, false, false) => if !RdFilled(b) && (LdFilled(b) || RuFilled(b)) == flanked then 's' else b.mid
    case _ => b.mid
  }

  /** Stage 8: at most one side filled. */
  predicate Lonely(b: Block) {
    match (UpFilled(b), LeftFilled(b), DownFilled(b), RightFilled(b))
    case (true, false, false, false) => true
    case (false, true, false, false) => true
    case (false, false, true, false) => true
    case (false, false, false, true) => true
    case (false, false, false, false) => true
    case _ => false
  }

  // ----- The tables are symmetric

  function FlipIcon(c: char): char {
    match c
    case 's' => 'a'
    case 'a' => 's'
    case 'w' => 'q'
    case 'q' => 'w'
    case _ => c
  }

  /** Left and right exchanged. */
  function Flip(b: Block): Block {
    Block(FlipIcon(b.ru), FlipIcon(b.up), FlipIcon(b.lu), FlipIcon(b.right), FlipIcon(b.mid), FlipIcon(b.left),
          FlipIcon(b.rd), FlipIcon(b.down), FlipIcon(b.ld))
  }

  function TransposeIcon(c: char): char {
    match c
    case 'a' => 'w'
    case 'w' => 'a'
    case _ => c
  }

  /** Rows and columns exchanged. */
  function Transpose(b: Block): Block {
    Block(TransposeIcon(b.lu), TransposeIcon(b.left), TransposeIcon(b.ld), TransposeIcon(b.up), TransposeIcon(b.mid),
          TransposeIcon(b.down), TransposeIcon(b.ru), TransposeIcon(b.right), TransposeIcon(b.rd))
  }

  lemma FlipSides(b: Block)
    ensures UpFilled(Flip(b)) == UpFilled(b) && DownFilled(Flip(b)) == DownFilled(b)
    ensures LeftFilled(Flip(b)) == RightFilled(b) && RightFilled(Flip(b)) == LeftFilled(b)
    ensures LuFilled(Flip(b)) == RuFilled(b) && RuFilled(Flip(b)) == LuFilled(b)
    ensures LdFilled(Flip(b)) == RdFilled(b) && RdFilled(Flip(b)) == LdFilled(b)
  {}

  lemma TransposeSides(b: Block)
    ensures UpFilled(Transpose(b)) == LeftFilled(b) && LeftFilled(Transpose(b)) == UpFilled(b)
    ensures DownFilled(Transpose(b)) == RightFilled(b) && RightFilled(Transpose(b)) == DownFilled(b)
    ensures LuFilled(Transpose(b)) == LuFilled(b) && RdFilled(Transpose(b)) == RdFilled(b)
    ensures LdFilled(Transpose(b)) == RuFilled(b) && RuFilled(Transpose(b)) == LdFilled(b)
  {}

  lemma ClosedSymmetric(b: Block)
    ensures Closed(Flip(b)) == FlipIcon(Closed(b)) && Closed(Transpose(b)) == TransposeIcon(Closed(b))
    ensures Lonely(Flip(b)) == Lonely(b) && Lonely(Transpose(b)) == Lonely(b)
  {
    hide UpFilled, LeftFilled, DownFilled, RightFilled;
    FlipSides(b);
    TransposeSides(b);
  }

  lemma CornerSymmetric(b: Block, flanked: bool)
    ensures Corner(Flip(b), flanked) == FlipIcon(Corner(b, flanked))
    ensures Corner(Transpose(b), flanked) == TransposeIcon(Corner(b, flanked))
  {
    hide UpFilled, LeftFilled, DownFilled, RightFilled, LuFilled, LdFilled, RdFilled, RuFilled;
    FlipSides(b);
    TransposeSides(b);
  }

  lemma HalvesSymmetric(stage: int, b: Block)
    requires 3 <= stage <= 5
    ensures Smooth(stage, Flip(b)) == FlipIcon(Smooth(stage, b))
    ensures Smooth(stage, Transpose(b)) == TransposeIcon(Smooth(stage, b))
  {
    hide UpFilled, LeftFilled, DownFilled, RightFilled, Closed, Corner, Lonely;
    FlipSides(b);
    TransposeSides(b);
  }

  /** Every stage treats a mirrored block in the mirrored way; the two mirrors make all symmetries of the square. */
  lemma SmoothSymmetric(stage: int, b: Block)
    ensures Smooth(stage, Flip(b)) == FlipIcon(Smooth(stage, b))
    ensures Smooth(stage, Transpose(b)) == TransposeIcon(Smooth(stage, b))
  {
    if 3 <= stage <= 5 {
      HalvesSymmetric(stage, b);
    } else {
      hide Closed, Corner, Lonely;
      ClosedSymmetric(b);
      CornerSymmetric(b, false);
      CornerSymmetric(b, true);
    }
  }

  // ----- Scanning

  /** Columns x1 .. x2 - 1, rows y1 .. y2 - 1, with room for a margin of one around them. */
  predicate Room(x1: int, y1: int, x2: int, y2: int, w: int, h: int) {
    x1 <= x2 && y1 <= y2 && -w <= x1 - 1 && x2 + 1 <= 2 * w && -h <= y1 - 1 && y2 + 1 <= 2 * h
  }

  function BlockAt(c: Cells, w: int, h: int, x: int, y: int): Block
    requires IsMap(c, w, h) && -w <= x - 1 && x + 1 < 2 * w && -h <= y - 1 && y + 1 < 2 * h
  {
    Block(Cell(c, w, h, x - 1, y - 1), Cell(c, w, h, x, y - 1), Cell(c, w, h, x + 1, y - 1),
          Cell(c, w, h, x - 1, y), Cell(c, w, h, x, y), Cell(c, w, h, x + 1, y),
          Cell(c, w, h, x - 1, y + 1), Cell(c, w, h, x, y + 1), Cell(c, w, h, x + 1, y + 1))
  }

  lemma BlockMid(s: Editing, w: int, h: int, x: int, y: int)
    requires Valid(s, w, h) && -w <= x - 1 && x + 1 < 2 * w && -h <= y - 1 && y + 1 < 2 * h
    ensures BlockAt(s.cells, w, h, x, y).mid == Cell(s.cells, w, h, x, y) != BREAK
  {}

  /** One stage from column x of row y on; after a change the next column is passed over. */
  function Scan(s: Editing, w: int, h: int, stage: int, x1: int, x2: int, y2: int, x: int, y: int): (t: Editing)
    requires Valid(s, w, h) && Room(x1, y, x2, if y <= y2 then y2 else y, w, h) && x1 <= x
    ensures Valid(t, w, h)
    decreases y2 - y, x2 - x
  {
    if y >= y2 then s
    else if x >= x2 then Scan(s, w, h, stage, x1, x2, y2, x1, y + 1)
    else
      var b := BlockAt(s.cells, w, h, x, y);
      var c := Smooth(stage, b);
      BlockMid(s, w, h, x, y);
      SmoothProper(stage, b);
      if c == b.mid then Scan(s, w, h, stage, x1, x2, y2, x + 1, y)
      else Scan(Change(s, w, h, Edit(x, y, c)), w, h, stage, x1, x2, y2, x + 2, y)
  }

  lemma ScanCell(s: Editing, w: int, h: int, stage: int, x1: int, x2: int, y2: int, x: int, y: int)
    requires Valid(s, w, h) && Room(x1, y, x2, y2, w, h) && x1 <= x < x2 && y < y2
    ensures var c := Smooth(stage, BlockAt(s.cells, w, h, x, y)); var now := Cell(s.cells, w, h, x, y);
            c != BREAK && BlockAt(s.cells, w, h, x, y).mid == now &&
            Scan(s, w, h, stage, x1, x2, y2, x, y) ==
            (if c == now then Scan(s, w, h, stage, x1, x2, y2, x + 1, y)
             else Scan(Change(s, w, h, Edit(x, y, c)), w, h, stage, x1, x2, y2, x + 2, y)) &&
            (c != now ==> |Change(s, w, h, Edit(x, y, c)).log| == |s.log| + 1)
  {
    BlockMid(s, w, h, x, y);
    SmoothProper(stage, BlockAt(s.cells, w, h, x, y));
  }

  lemma ScanRowEnd(s: Editing, w: int, h: int, stage: int, x1: int, x2: int, y2: int, x: int, y: int)
    requires Valid(s, w, h) && Room(x1, y, x2, y2, w, h) && x1 <= x && x2 <= x && y < y2
    ensures Scan(s, w, h, stage, x1, x2, y2, x, y) == Scan(s, w, h, stage, x1, x2, y2, x1, y + 1)
  {}

  lemma ScanEnd(s: Editing, w: int, h: int, stage: int, x1: int, x2: int, y2: int, x: int, y: int)
    requires Valid(s, w, h) && Room(x1, y, x2, if y <= y2 then y2 else y, w, h) && x1 <= x && y >= y2
    ensures Scan(s, w, h, stage, x1, x2, y2, x, y) == s
  {}

  lemma SmoothProper(stage: int, b: Block)
    requires b.mid != BREAK
    ensures Smooth(stage, b) != BREAK
  {}

  // ----- A press

  /** The eight stages in turn, until one of them changes something. */
  function Rounded(s: Editing, w: int, h: int, x1: int, y1: int, x2: int, y2: int, stage: int): (t: Editing)
    requires Valid(s, w, h) && Room(x1, y1, x2, y2, w, h)
    ensures Valid(t, w, h)
    decreases 9 - stage
  {
    if stage > 8 then s
    else
      var t := Scan(s, w, h, stage, x1, x2, y2, x1, y1);
      if t != s then t else Rounded(s, w, h, x1, y1, x2, y2, stage + 1)
  }

  lemma {:induction false} EditsJoin(s: Editing, w: int, h: int, e: Edit, es: seq<Edit>)
    requires Valid(s, w, h) && GoodEdit(e, w, h) && GoodEdits(es, w, h)
    ensures GoodEdits([e] + es, w, h)
    ensures EditAll(s, w, h, [e] + es) == EditAll(Change(s, w, h, e), w, h, es)
    decreases |es|
  {
    hide Change, Valid;
    if es != [] {
      EditsJoin(s, w, h, e, es[..|es| - 1]);
      assert ([e] + es)[..|es|] == [e] + es[..|es| - 1];
    } else {
      assert [e] + es == [e] && [e][..0] == [];
    }
  }

  /** Row by row and from left to right, never two cells next to each other. */
  predicate Spaced(es: seq<Edit>) {
    forall i :: 0 <= i < |es| - 1 ==>
      es[i].y < es[i + 1].y || (es[i].y == es[i + 1].y && es[i].x + 2 <= es[i + 1].x)
  }

  /** No edit before column x of row y. */
  predicate StartsAt(es: seq<Edit>, x: int, y: int) {
    es != [] ==> es[0].y > y || (es[0].y == y && es[0].x >= x)
  }

  lemma {:induction false} SpacedMore(e: Edit, rest: seq<Edit>)
    requires Spaced(rest) && StartsAt(rest, e.x + 2, e.y)
    ensures Spaced([e] + rest)
  {}

  /** A stage is a list of edits, with a cell left alone after each. */
  lemma {:induction false} ScanIsEdits(s: Editing, w: int, h: int, stage: int, x1: int, x2: int, y2: int, x: int,
                                       y: int) returns (es: seq<Edit>)
    requires Valid(s, w, h) && Room(x1, y, x2, if y <= y2 then y2 else y, w, h) && x1 <= x
    ensures GoodEdits(es, w, h) && EditAll(s, w, h, es) == Scan(s, w, h, stage, x1, x2, y2, x, y)
    ensures Spaced(es) && StartsAt(es, x, y)
    decreases y2 - y, x2 - x
  {
    hide Smooth, BlockAt, Change;
    if y >= y2 {
      es := [];
    } else if x >= x2 {
      es := ScanIsEdits(s, w, h, stage, x1, x2, y2, x1, y + 1);
    } else {
      var b := BlockAt(s.cells, w, h, x, y);
      var c := Smooth(stage, b);
      BlockMid(s, w, h, x, y);
      SmoothProper(stage, b);
      if c == b.mid {
        es := ScanIsEdits(s, w, h, stage, x1, x2, y2, x + 1, y);
      } else {
        var e := Edit(x, y, c);
        var rest := ScanIsEdits(Change(s, w, h, e), w, h, stage, x1, x2, y2, x + 2, y);
        EditsJoin(s, w, h, e, rest);
        SpacedMore(e, rest);
        es := [e] + rest;
      }
    }
  }

  /** A stage only adds to the log. */
  lemma {:induction false} ScanLogs(s: Editing, w: int, h: int, stage: int, x1: int, x2: int, y2: int, x: int, y: int)
    requires Valid(s, w, h) && Room(x1, y, x2, if y <= y2 then y2 else y, w, h) && x1 <= x
    ensures |Scan(s, w, h, stage, x1, x2, y2, x, y).log| >= |s.log|
    decreases y2 - y, x2 - x
  {
    hide Smooth, BlockAt, Change, Scan;
    if y >= y2 {
      ScanEnd(s, w, h, stage, x1, x2, y2, x, y);
    } else if x >= x2 {
      ScanRowEnd(s, w, h, stage, x1, x2, y2, x, y);
      ScanLogs(s, w, h, stage, x1, x2, y2, x1, y + 1);
    } else {
      ScanCell(s, w, h, stage, x1, x2, y2, x, y);
      var c := Smooth(stage, BlockAt(s.cells, w, h, x, y));
      if c == Cell(s.cells, w, h, x, y) {
        ScanLogs(s, w, h, stage, x1, x2, y2, x + 1, y);
      } else {
        ChangeValid(s, w, h, x, y, c);
        ScanLogs(Change(s, w, h, Edit(x, y, c)), w, h, stage, x1, x2, y2, x + 2, y);
      }
    }
  }

  lemma ChangeValid(s: Editing, w: int, h: int, x: int, y: int, c: char)
    requires Valid(s, w, h) && GoodEdit(Edit(x, y, c), w, h)
    ensures Valid(Change(s, w, h, Edit(x, y, c)), w, h)
  {}

  /** The table of the stage leaves the cell as it is. */
  ghost predicate Settled(s: Editing, w: int, h: int, stage: int, x: int, y: int)
    requires Valid(s, w, h) && -w <= x - 1 && x + 1 < 2 * w && -h <= y - 1 && y + 1 < 2 * h
  {
    Smooth(stage, BlockAt(s.cells, w, h, x, y)) == Cell(s.cells, w, h, x, y)
  }

  /** A stage changes nothing exactly when its table leaves every cell of the area as it is. */
  lemma {:induction false} ScanIdle(s: Editing, w: int, h: int, stage: int, x1: int, x2: int, y2: int, x: int, y: int)
    requires Valid(s, w, h) && Room(x1, y, x2, if y <= y2 then y2 else y, w, h) && x1 <= x
    ensures Scan(s, w, h, stage, x1, x2, y2, x, y) == s <==>
            forall i, j :: x1 <= i < x2 && y <= j < y2 && (j == y ==> x <= i) ==> Settled(s, w, h, stage, i, j)
    decreases y2 - y, x2 - x
  {
    hide Smooth, BlockAt, Change, Scan, Cell;
    if y >= y2 {
      ScanEnd(s, w, h, stage, x1, x2, y2, x, y);
    } else if x >= x2 {
      ScanRowEnd(s, w, h, stage, x1, x2, y2, x, y);
      ScanIdle(s, w, h, stage, x1, x2, y2, x1, y + 1);
    } else {
      ScanCell(s, w, h, stage, x1, x2, y2, x, y);
      var c := Smooth(stage, BlockAt(s.cells, w, h, x, y));
      if c == Cell(s.cells, w, h, x, y) {
        ScanIdle(s, w, h, stage, x1, x2, y2, x + 1, y);
      } else {
        assert !Settled(s, w, h, stage, x, y);
        ChangeValid(s, w, h, x, y, c);
        ScanLogs(Change(s, w, h, Edit(x, y, c)), w, h, stage, x1, x2, y2, x + 2, y);
      }
    }
  }

  /** Only the first stage that finds something to change does anything, so blocks are removed only when none can be
      added. */
  lemma {:induction false} FirstStage(s: Editing, w: int, h: int, x1: int, y1: int, x2: int, y2: int, from: int, k: int)
    requires Valid(s, w, h) && Room(x1, y1, x2, y2, w, h) && from <= k <= 8
    requires Scan(s, w, h, k, x1, x2, y2, x1, y1) != s
    requires forall j :: from <= j < k ==> Scan(s, w, h, j, x1, x2, y2, x1, y1) == s
    ensures Rounded(s, w, h, x1, y1, x2, y2, from) == Scan(s, w, h, k, x1, x2, y2, x1, y1)
    decreases k - from
  {
    hide Scan;
    if from < k { FirstStage(s, w, h, x1, y1, x2, y2, from + 1, k); }
  }

  /** A press of Round changes nothing exactly when all eight tables leave every cell of the area as it is. */
  lemma {:induction false} RoundIdle(s: Editing, w: int, h: int, x1: int, y1: int, x2: int, y2: int, stage: int)
    requires Valid(s, w, h) && Room(x1, y1, x2, y2, w, h)
    ensures Rounded(s, w, h, x1, y1, x2, y2, stage) == s <==>
            forall k, i, j :: stage <= k <= 8 && x1 <= i < x2 && y1 <= j < y2 ==> Settled(s, w, h, k, i, j)
    decreases 9 - stage
  {
    hide Scan, Settled, Valid;
    if stage <= 8 {
      ScanIdle(s, w, h, stage, x1, x2, y2, x1, y1);
      RoundIdle(s, w, h, x1, y1, x2, y2, stage + 1);
    }
  }

  lemma {:induction false} RoundedIsEdits(s: Editing, w: int, h: int, x1: int, y1: int, x2: int, y2: int,
                                          stage: int) returns (es: seq<Edit>)
    requires Valid(s, w, h) && Room(x1, y1, x2, y2, w, h)
    ensures GoodEdits(es, w, h) && EditAll(s, w, h, es) == Rounded(s, w, h, x1, y1, x2, y2, stage)
    decreases 9 - stage
  {
    if stage > 8 {
      es := [];
    } else if Scan(s, w, h, stage, x1, x2, y2, x1, y1) != s {
      es := ScanIsEdits(s, w, h, stage, x1, x2, y2, x1, y1);
    } else {
      es := RoundedIsEdits(s, w, h, x1, y1, x2, y2, stage + 1);
    }
  }

  /** One press of Undo takes back a press of Round that changed something. */
  lemma UndoRounded(s: Editing, w: int, h: int, x1: int, y1: int, x2: int, y2: int)
    requires Valid(s, w, h) && Room(x1, y1, x2, y2, w, h)
    requires Rounded(Broken(s), w, h, x1, y1, x2, y2, 1) != Broken(s)
    ensures Undone(Rounded(Broken(s), w, h, x1, y1, x2, y2, 1), w, h) == Broken(s)
  {
    var es := RoundedIsEdits(Broken(s), w, h, x1, y1, x2, y2, 1);
    PressOnce(s, w, h, es);
  }

  lemma {:induction false} SameTable(s: Editing, w: int, h: int, x1: int, x2: int, y2: int, x: int, y: int)
    requires Valid(s, w, h) && Room(x1, y, x2, if y <= y2 then y2 else y, w, h) && x1 <= x
    ensures Scan(s, w, h, 3, x1, x2, y2, x, y) == Scan(s, w, h, 5, x1, x2, y2, x, y)
    decreases y2 - y, x2 - x
  {
    hide Smooth, BlockAt, Change;
    if y >= y2 {
    } else if x >= x2 {
      SameTable(s, w, h, x1, x2, y2, x1, y + 1);
    } else {
      var b := BlockAt(s.cells, w, h, x, y);
      var c := Smooth(3, b);
      TablesAgree(b);
      BlockMid(s, w, h, x, y);
      SmoothProper(3, b);
      if c == b.mid {
        SameTable(s, w, h, x1, x2, y2, x + 1, y);
      } else {
        SameTable(Change(s, w, h, Edit(x, y, c)), w, h, x1, x2, y2, x + 2, y);
      }
    }
  }

  lemma TablesAgree(b: Block)
    ensures Smooth(3, b) == Smooth(5, b)
  {}

  /** The fifth stage never changes anything: it only runs when the third has found nothing, and is the third again. */
  lemma FifthStageIdle(s: Editing, w: int, h: int, x1: int, y1: int, x2: int, y2: int)
    requires Valid(s, w, h) && Room(x1, y1, x2, y2, w, h)
    requires Scan(s, w, h, 3, x1, x2, y2, x1, y1) == s
    ensures Rounded(s, w, h, x1, y1, x2, y2, 5) == Rounded(s, w, h, x1, y1, x2, y2, 6)
  {
    hide Scan;
    SameTable(s, w, h, x1, x2, y2, x1, y1);
  }

  // ----- Adding or removing

  /** How much of a cell is solid. */
  function Solidity(c: char): int { if c == 'x' then 2 else if Half(c) then 1 else 0 }

  /** No cell solider, or no cell less solid, in d than in c. */
  predicate Ordered(c: Cells, d: Cells, w: int, h: int, adding: bool)
    requires IsMap(c, w, h) && IsMap(d, w, h)
  {
    forall x, y :: 0 <= x < w && 0 <= y < h ==>
      if adding then Solidity(c[x][y]) <= Solidity(d[x][y]) else Solidity(d[x][y]) <= Solidity(c[x][y])
  }

  lemma SmoothDirection(stage: int, b: Block)
    ensures stage <= 5 ==> Solidity(b.mid) <= Solidity(Smooth(stage, b))
    ensures stage > 5 ==> Solidity(Smooth(stage, b)) <= Solidity(b.mid)
  {
    hide UpFilled, LeftFilled, DownFilled, RightFilled, LuFilled, LdFilled, RdFilled, RuFilled;
  }

  lemma {:induction false} ScanDirection(s: Editing, w: int, h: int, stage: int, x1: int, x2: int, y2: int, x: int,
                                         y: int)
    requires Valid(s, w, h) && Room(x1, y, x2, if y <= y2 then y2 else y, w, h) && x1 <= x
    ensures Ordered(s.cells, Scan(s, w, h, stage, x1, x2, y2, x, y).cells, w, h, stage <= 5)
    decreases y2 - y, x2 - x
  {
    hide Solidity, Smooth, BlockAt;
    if y >= y2 {
    } else if x >= x2 {
      ScanDirection(s, w, h, stage, x1, x2, y2, x1, y + 1);
    } else {
      var b := BlockAt(s.cells, w, h, x, y);
      var c := Smooth(stage, b);
      SmoothDirection(stage, b);
      BlockMid(s, w, h, x, y);
      SmoothProper(stage, b);
      if c == b.mid {
        ScanDirection(s, w, h, stage, x1, x2, y2, x + 1, y);
      } else {
        ScanDirection(Change(s, w, h, Edit(x, y, c)), w, h, stage, x1, x2, y2, x + 2, y);
      }
    }
  }

  /** A press of Round makes no cell less solid, or no cell more solid. */
  lemma {:induction false} RoundDirection(s: Editing, w: int, h: int, x1: int, y1: int, x2: int, y2: int, stage: int)
    returns (adding: bool)
    requires Valid(s, w, h) && Room(x1, y1, x2, y2, w, h)
    ensures Ordered(s.cells, Rounded(s, w, h, x1, y1, x2, y2, stage).cells, w, h, adding)
    decreases 9 - stage
  {
    hide Scan;
    if stage > 8 {
      adding := true;
    } else if Scan(s, w, h, stage, x1, x2, y2, x1, y1) != s {
      ScanDirection(s, w, h, stage, x1, x2, y2, x1, y1);
      adding := stage <= 5;
    } else {
      adding := RoundDirection(s, w, h, x1, y1, x2, y2, stage + 1);
    }
  }
}
