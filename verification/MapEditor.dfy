/** The map editor's state and its operations on the selected area. */
module MapEditor {
  import opened Torus
  import opened MapLog
  import opened MapAreas
  import opened Rounding

  const MAX_MAP_SIZE := 900

  function Tabulate(d: array2<char>, w: int, h: int): (c: Cells)
    requires 0 <= w <= d.Length0 && 0 <= h <= d.Length1
    reads d
    ensures |c| == w && forall x :: 0 <= x < w ==> |c[x]| == h
    ensures forall x, y :: 0 <= x < w && 0 <= y < h ==> c[x][y] == d[x, y]
  {
    seq(w, x requires 0 <= x < w reads d => seq(h, y requires 0 <= y < h reads d => d[x, y]))
  }

  predicate Between(a: int, v: int, b: int) { a <= v <= b || b <= v <= a }

  class Editor {
    const width: int
    const height: int
    const data: array2<char>
    const clipdata: array2<char>
    var undolist: seq<Record>
    var changed: bool
    var viewX: int
    var viewY: int
    var selectfromX: int
    var selectfromY: int
    var selecttoX: int
    var selecttoY: int

    ghost predicate Shaped() {
      && 0 < width <= MAX_MAP_SIZE && 0 < height <= MAX_MAP_SIZE && data != clipdata
      && data.Length0 == data.Length1 == clipdata.Length0 == clipdata.Length1 == MAX_MAP_SIZE
    }

    ghost function State(): Editing
      requires Shaped()
      reads this, data
    {
      Editing(Tabulate(data, width, height), undolist)
    }

    ghost predicate Valid()
      reads this, data
    {
      Shaped() && MapLog.Valid(State(), width, height)
    }

    ghost function Clip(): Cells
      requires Shaped()
      reads clipdata
    {
      Tabulate(clipdata, MAX_MAP_SIZE, MAX_MAP_SIZE)
    }

    /** A blank map with an empty clipboard and nothing selected. */
    constructor (w: int, h: int)
      requires 0 < w <= MAX_MAP_SIZE && 0 < h <= MAX_MAP_SIZE
      ensures Valid() && width == w && height == h && fresh(data) && fresh(clipdata)
      ensures undolist == [] && selectfromX == -1 && NoBreaks(Clip())
    {
      width, height := w, h;
      data := new char[MAX_MAP_SIZE, MAX_MAP_SIZE]((x, y) => ' ');
      clipdata := new char[MAX_MAP_SIZE, MAX_MAP_SIZE]((x, y) => ' ');
      undolist, changed := [], false;
      viewX, viewY, selectfromX, selectfromY, selecttoX, selecttoY := 0, 0, -1, 0, 0, 0;
    }

    method SaveUndoIcon(x: int, y: int, icon: char)
      modifies this`undolist
      ensures undolist == old(undolist) + [Record(x, y, icon)]
    {
      undolist := undolist + [Record(x, y, icon)];
    }

    method ClearUndo()
      requires Shaped()
      modifies this`undolist
      ensures State() == Broken(old(State()))
    {
      SaveUndoIcon(0, 0, '\n');
    }

    method ChangeMapData(x: int, y: int, icon: char, save: bool)
      requires Valid() && GoodEdit(Edit(x, y, icon), width, height)
      modifies this`undolist, this`changed, data
      ensures Valid() && changed
      ensures save ==> State() == Change(old(State()), width, height, Edit(x, y, icon))
      ensures !save ==>
                State().cells == Put(old(State()).cells, width, height, Fold(x, width), Fold(y, height), icon) &&
                State().log == old(undolist)
    {
      hide MapLog.Valid, Change, Put;
      changed := true;
      ghost var s, e := State(), Edit(x, y, icon);
      ChangeSplit(s, width, height, e);
      PutValid(s, width, height, e);
      var x, y := x, y;
      if x < 0 { x := x + width; }
      if y < 0 { y := y + height; }
      if x > width - 1 { x := x - width; }
      if y > height - 1 { y := y - height; }
      if data[x, y] == icon { return; }
      if save {
        SaveUndoIcon(x, y, data[x, y]);
      }
      data[x, y] := icon;
      TabulatePut(s.cells, State().cells, width, height, x, y, icon);
    }

    method MapData(x: int, y: int) returns (icon: char)
      requires Valid() && PointInReach(Vec(x, y), width, height)
      ensures icon == Cell(State().cells, width, height, x, y)
    {
      var x, y := x, y;
      if x < 0 { x := x + width; } else if x >= width { x := x - width; }
      if y < 0 { y := y + height; } else if y >= height { y := y - height; }
      icon := data[x, y];
    }

    method ClearSelectArea()
      modifies this`selectfromX
      ensures selectfromX == -1
    {
      selectfromX := -1;
    }

    method Undo()
      requires Valid()
      modifies this`undolist, this`changed, this`selectfromX, data
      ensures Valid() && State() == Undone(old(State()), width, height)
    {
      hide Put;
      ClearSelectArea();
      ghost var goal := Undone(State(), width, height);
      if undolist != [] && undolist[|undolist| - 1].icon == '\n' {
        undolist := undolist[..|undolist| - 1];
      }
      while undolist != []
        invariant Valid() && Unwind(State(), width, height) == goal
        decreases |undolist|
      {
        var r := undolist[|undolist| - 1];
        if r.icon == '\n' { return; }
        assert r in undolist;
        ChangeMapData(r.x, r.y, r.icon, false);
        undolist := undolist[..|undolist| - 1];
      }
    }

    // ----- Operations on the selected area

    /** The selected area in map coordinates. */
    function Selected(): Area
      reads this
    {
      var (x1, x2) := if selectfromX < selecttoX then (selectfromX + viewX, selecttoX + 1 + viewX)
                      else (selecttoX + viewX, selectfromX + 1 + viewX);
      var (y1, y2) := if selectfromY < selecttoY then (selectfromY + viewY, selecttoY + 1 + viewY)
                      else (selecttoY + viewY, selectfromY + 1 + viewY);
      Area(x1, y1, x2, y2)
    }

    /** The selection covers the cells between its two corners, both included, in whatever order they were chosen. */
    lemma SelectedCorners(p: Vec)
      ensures InArea(Selected(), p) <==>
              Between(selectfromX, p.x - viewX, selecttoX) && Between(selectfromY, p.y - viewY, selecttoY)
    {}

    /** The selection lies where coordinates can be folded into the map, and fits the clipboard. */
    ghost predicate Reachable()
      reads this
    {
      selectfromX >= 0 ==>
        AreaInReach(Selected(), width, height) &&
        Selected().x2 - Selected().x1 <= MAX_MAP_SIZE && Selected().y2 - Selected().y1 <= MAX_MAP_SIZE
    }

    ghost function Whole(f: Choice): Editing
      requires Valid() && AreaInReach(Selected(), width, height) && Proper(f)
      reads this, data
    {
      Run(Broken(State()), width, height, Selected(), f, Selected().x2, Selected().y1)
    }

    method FillMapArea(icon: char) returns (res: int)
      requires Valid() && Reachable() && icon != BREAK
      modifies this`undolist, this`changed, data
      ensures Valid()
      ensures selectfromX < 0 ==> res == 1 && State() == Broken(old(State()))
      ensures selectfromX >= 0 ==> res == 0 && State() == old(Whole(Filling(icon)))
    {
      hide Run, MapLog.Valid, Change, Broken, Cell;
      ghost var s, f := Broken(State()), Filling(icon);
      BrokenValid(State(), width, height);
      ClearUndo();
      if selectfromX < 0 { return 1; }
      var a := Selected();
      RunStart(s, width, height, a, f);
      for x := a.x1 to a.x2
        invariant Valid() && State() == Run(s, width, height, a, f, x, a.y1)
      {
        for y := a.y1 to a.y2
          invariant Valid() && State() == Run(s, width, height, a, f, x, y)
        {
          RunNext(s, width, height, a, f, x, y);
          ChangeMapData(x, y, icon, true);
        }
        RunColumn(s, width, height, a, f, x);
      }
      res := 0;
    }

    method NegativeMapArea() returns (res: int)
      requires Valid() && Reachable()
      modifies this`undolist, this`changed, data
      ensures Valid()
      ensures selectfromX < 0 ==> res == 1 && State() == Broken(old(State()))
      ensures selectfromX >= 0 ==> res == 0 && State() == old(Whole(Negating()))
    {
      hide Run, MapLog.Valid, Change, Broken, Cell;
      ghost var s, f := Broken(State()), Negating();
      BrokenValid(State(), width, height);
      ClearUndo();
      if selectfromX < 0 { return 1; }
      var a := Selected();
      RunStart(s, width, height, a, f);
      for x := a.x1 to a.x2
        invariant Valid() && State() == Run(s, width, height, a, f, x, a.y1)
      {
        for y := a.y1 to a.y2
          invariant Valid() && State() == Run(s, width, height, a, f, x, y)
        {
          RunNext(s, width, height, a, f, x, y);
          var icon := MapData(x, y);
          match icon {
            case ' ' => ChangeMapData(x, y, 'x', true);
            case 'x' => ChangeMapData(x, y, ' ', true);
            case 'q' => ChangeMapData(x, y, 's', true);
            case 's' => ChangeMapData(x, y, 'q', true);
            case 'w' => ChangeMapData(x, y, 'a', true);
            case 'a' => ChangeMapData(x, y, 'w', true);
            case _ => ChangeSame(State(), width, height, Edit(x, y, icon));
          }
        }
        RunColumn(s, width, height, a, f, x);
      }
      res := 0;
    }

    method BlankClip()
      requires Shaped()
      modifies clipdata
      ensures forall i, j :: 0 <= i < MAX_MAP_SIZE && 0 <= j < MAX_MAP_SIZE ==> Clip()[i][j] == ' '
    {
      forall i, j | 0 <= i < MAX_MAP_SIZE && 0 <= j < MAX_MAP_SIZE { clipdata[i, j] := ' '; }
    }

    method StoreClip(i: int, j: int, icon: char)
      requires Shaped() && 0 <= i < MAX_MAP_SIZE && 0 <= j < MAX_MAP_SIZE
      modifies clipdata
      ensures Clip() == Put(old(Clip()), MAX_MAP_SIZE, MAX_MAP_SIZE, i, j, icon)
    {
      ghost var before := Clip();
      clipdata[i, j] := icon;
      TabulatePut(before, Clip(), MAX_MAP_SIZE, MAX_MAP_SIZE, i, j, icon);
    }

    method CopyMapArea() returns (res: int)
      requires Valid() && Reachable() && NoBreaks(Clip())
      modifies clipdata
      ensures Valid() && State() == old(State()) && NoBreaks(Clip())
      ensures selectfromX < 0 ==> res == 1 && Clip() == old(Clip())
      ensures selectfromX >= 0 ==> res == 0 && BlankBeyond(Clip(), Selected())
      ensures selectfromX >= 0 ==>
                CopiedTo(Clip(), Selected(), State().cells, width, height, Selected().x2, Selected().y1)
    {
      hide MapLog.Valid, Cell, NoBreaks, Put, BlankBeyond, CopiedTo;
      ghost var s := State();
      if selectfromX < 0 { return 1; }
      var a := Selected();
      BlankClip();
      BlankStart(Clip(), a, s.cells, width, height);
      for x := a.x1 to a.x2
        invariant State() == s && NoBreaks(Clip()) && BlankBeyond(Clip(), a)
        invariant CopiedTo(Clip(), a, s.cells, width, height, x, a.y1)
      {
        for y := a.y1 to a.y2
          invariant State() == s && NoBreaks(Clip()) && BlankBeyond(Clip(), a)
          invariant CopiedTo(Clip(), a, s.cells, width, height, x, y)
        {
          var icon := MapData(x, y);
          NeverBreak(s, width, height, x, y);
          CopyNext(Clip(), a, s.cells, width, height, x, y, MAX_MAP_SIZE, icon);
          StoreClip(x - a.x1, y - a.y1, icon);
        }
        CopyColumn(Clip(), a, s.cells, width, height, x);
      }
      res := 0;
    }

    /** One cell of a cut, which may have been blanked already. */
    method CutCell(a: Area, x: int, y: int, ghost s0: Editing)
      requires Valid() && MapLog.Valid(s0, width, height) && LoopAt(a, width, height, x, y) && x < a.x2 && y < a.y2
      requires a.x2 - a.x1 <= MAX_MAP_SIZE && a.y2 - a.y1 <= MAX_MAP_SIZE
      requires MapLog.Valid(Broken(s0), width, height)
      requires State() == Run(Broken(s0), width, height, a, Filling(' '), x, y)
      requires NoBreaks(Clip()) && BlankBeyond(Clip(), a) && CutTo(Clip(), a, s0.cells, width, height, x, y)
      modifies this`undolist, this`changed, data, clipdata
      ensures Valid() && State() == Run(Broken(s0), width, height, a, Filling(' '), x, y + 1)
      ensures NoBreaks(Clip()) && BlankBeyond(Clip(), a) && CutTo(Clip(), a, s0.cells, width, height, x, y + 1)
    {
      hide Run, MapLog.Valid, Change, Broken, Cell, CutTo, NoBreaks, Put, BlankBeyond;
      RunNext(Broken(s0), width, height, a, Filling(' '), x, y);
      var icon := MapData(x, y);
      NeverBreak(State(), width, height, x, y);
      CutNext(Clip(), a, s0, width, height, x, y, MAX_MAP_SIZE, icon);
      KeepsClean(Clip(), a, x, y, MAX_MAP_SIZE, icon);
      StoreClip(x - a.x1, y - a.y1, icon);
      ChangeMapData(x, y, ' ', true);
    }

    method CutMapArea() returns (res: int)
      requires Valid() && Reachable() && NoBreaks(Clip())
      modifies this`undolist, this`changed, data, clipdata
      ensures Valid() && NoBreaks(Clip())
      ensures selectfromX < 0 ==> res == 1 && State() == Broken(old(State())) && Clip() == old(Clip())
      ensures selectfromX >= 0 ==> res == 0 && State() == old(Whole(Filling(' '))) && BlankBeyond(Clip(), Selected())
      ensures selectfromX >= 0 ==>
                CutTo(Clip(), Selected(), old(State()).cells, width, height, Selected().x2, Selected().y1)
    {
      hide Run, MapLog.Valid, Change, Broken, Cell, CutTo, NoBreaks, Put, BlankBeyond;
      ghost var s, f := Broken(State()), Filling(' ');
      ghost var s0 := State();
      BrokenValid(State(), width, height);
      ClearUndo();
      if selectfromX < 0 { return 1; }
      var a := Selected();
      BlankClip();
      RunStart(s, width, height, a, f);
      BlankStart(Clip(), a, s0.cells, width, height);
      for x := a.x1 to a.x2
        invariant Valid() && State() == Run(s, width, height, a, f, x, a.y1)
        invariant NoBreaks(Clip()) && BlankBeyond(Clip(), a) && CutTo(Clip(), a, s0.cells, width, height, x, a.y1)
      {
        for y := a.y1 to a.y2
          invariant Valid() && State() == Run(s, width, height, a, f, x, y)
          invariant NoBreaks(Clip()) && BlankBeyond(Clip(), a) && CutTo(Clip(), a, s0.cells, width, height, x, y)
        {
          CutCell(a, x, y, s0);
        }
        RunColumn(s, width, height, a, f, x);
        CutColumn(Clip(), a, s0.cells, width, height, x);
      }
      res := 0;
    }

    /** One cell of a paste; blank cells of the clipboard leave the map as it is. */
    method PasteCell(a: Area, x: int, y: int, ghost s: Editing)
      requires Valid() && MapLog.Valid(s, width, height) && LoopAt(a, width, height, x, y) && x < a.x2 && y < a.y2
      requires a.x2 - a.x1 <= MAX_MAP_SIZE && a.y2 - a.y1 <= MAX_MAP_SIZE && Proper(Pasting(Clip(), a))
      requires State() == Run(s, width, height, a, Pasting(Clip(), a), x, y)
      modifies this`undolist, this`changed, data
      ensures Valid() && State() == Run(s, width, height, a, Pasting(Clip(), a), x, y + 1)
    {
      hide Run, MapLog.Valid, Change, Broken, Cell, NoBreaks, Pasting;
      RunNext(s, width, height, a, Pasting(Clip(), a), x, y);
      PastingAt(Clip(), a, MAX_MAP_SIZE, Vec(x, y), Cell(State().cells, width, height, x, y));
      if clipdata[x - a.x1, y - a.y1] != ' ' {
        ChangeMapData(x, y, clipdata[x - a.x1, y - a.y1], true);
      } else {
        ChangeSame(State(), width, height, Edit(x, y, Cell(State().cells, width, height, x, y)));
      }
    }

    method PasteMapArea() returns (res: int)
      requires Valid() && Reachable() && NoBreaks(Clip())
      modifies this`undolist, this`changed, data
      ensures Valid() && Proper(Pasting(Clip(), Selected()))
      ensures selectfromX < 0 ==> res == 1 && State() == Broken(old(State()))
      ensures selectfromX >= 0 ==> res == 0 && State() == old(Whole(Pasting(Clip(), Selected())))
    {
      hide Run, MapLog.Valid, Change, Broken, Cell, NoBreaks, Pasting;
      PasteProper(Clip(), Selected());
      ghost var s, f := Broken(State()), Pasting(Clip(), Selected());
      BrokenValid(State(), width, height);
      ClearUndo();
      if selectfromX < 0 { return 1; }
      var a := Selected();
      RunStart(s, width, height, a, f);
      for x := a.x1 to a.x2
        invariant Valid() && State() == Run(s, width, height, a, f, x, a.y1)
      {
        for y := a.y1 to a.y2
          invariant Valid() && State() == Run(s, width, height, a, f, x, y)
        {
          PasteCell(a, x, y, s);
        }
        RunColumn(s, width, height, a, f, x);
      }
      res := 0;
    }

    // ----- Round

    method BlockMap(x: int, y: int) returns (b: Block)
      requires Valid() && -width <= x - 1 && x + 1 < 2 * width && -height <= y - 1 && y + 1 < 2 * height
      ensures b == BlockAt(State().cells, width, height, x, y)
    {
      var lu := MapData(x - 1, y - 1);
      var up := MapData(x, y - 1);
      var ru := MapData(x + 1, y - 1);
      var left := MapData(x - 1, y);
      var mid := MapData(x, y);
      var right := MapData(x + 1, y);
      var ld := MapData(x - 1, y + 1);
      var down := MapData(x, y + 1);
      var rd := MapData(x + 1, y + 1);
      b := Block(lu, up, ru, left, mid, right, ld, down, rd);
    }

    /** One of the eight scans. */
    method RoundStage(stage: int, x1: int, y1: int, x2: int, y2: int) returns (change: bool)
      requires Valid() && Room(x1, y1, x2, y2, width, height)
      modifies this`undolist, this`changed, data
      ensures Valid() && State() == Scan(old(State()), width, height, stage, x1, x2, y2, x1, y1)
      ensures change <==> State() != old(State())
    {
      hide Scan, Smooth, BlockAt, Change, MapLog.Valid;
      change := false;
      ghost var s := State();
      ghost var goal := Scan(s, width, height, stage, x1, x2, y2, x1, y1);
      var y := y1;
      while y < y2
        invariant y1 <= y <= y2 && Valid()
        invariant Scan(State(), width, height, stage, x1, x2, y2, x1, y) == goal
        invariant |s.log| <= |undolist| && (change <==> State() != s) && (change <==> |s.log| < |undolist|)
      {
        var x := x1;
        while x < x2
          invariant x1 <= x && y1 <= y < y2 && Valid()
          invariant Scan(State(), width, height, stage, x1, x2, y2, x, y) == goal
          invariant |s.log| <= |undolist| && (change <==> State() != s) && (change <==> |s.log| < |undolist|)
        {
          ScanCell(State(), width, height, stage, x1, x2, y2, x, y);
          var mid := MapData(x, y);
          var b := BlockMap(x, y);
          var c := Smooth(stage, b);
          if c != mid {
            ChangeMapData(x, y, c, true);
            change := true;
            x := x + 1;
          }
          x := x + 1;
        }
        ScanRowEnd(State(), width, height, stage, x1, x2, y2, x, y);
        y := y + 1;
      }
      ScanEnd(State(), width, height, stage, x1, x2, y2, x1, y);
    }

    /** Smooths the selected area, or without one the columns and rows of the window. */
    method RoundMapArea(columns: int, rows: int) returns (res: int)
      requires Valid() && columns >= 0 && rows >= 0
      requires var a := RoundedArea(columns, rows); Room(a.x1, a.y1, a.x2, a.y2, width, height)
      modifies this`undolist, this`changed, data
      ensures Valid() && res == 0
      ensures var a := RoundedArea(columns, rows);
              State() == Rounded(Broken(old(State())), width, height, a.x1, a.y1, a.x2, a.y2, 1)
    {
      hide Scan, MapLog.Valid;
      var a := RoundedArea(columns, rows);
      BrokenValid(State(), width, height);
      ClearUndo();
      ghost var s := State();
      var change, stage := false, 1;
      while stage <= 8 && !change
        invariant 1 <= stage <= 9 && Valid() && (!change ==> State() == s)
        invariant Rounded(s, width, height, a.x1, a.y1, a.x2, a.y2, 1) ==
                  if change then State() else Rounded(s, width, height, a.x1, a.y1, a.x2, a.y2, stage)
      {
        change := RoundStage(stage, a.x1, a.y1, a.x2, a.y2);
        stage := stage + 1;
      }
      res := 0;
    }

    function RoundedArea(columns: int, rows: int): Area
      reads this
    {
      if selectfromX < 0 then Area(viewX, viewY, viewX + columns, viewY + rows) else Selected()
    }
  }

  /** A change, seen as the cell's place, its old icon and the new map. */
  lemma ChangeSplit(s: Editing, w: int, h: int, e: Edit)
    requires MapLog.Valid(s, w, h) && GoodEdit(e, w, h)
    ensures IsMap(s.cells, w, h)
    ensures var x, y := Fold(e.x, w), Fold(e.y, h); var put := Put(s.cells, w, h, x, y, e.icon);
            && 0 <= x < w && 0 <= y < h
            && if s.cells[x][y] == e.icon then put == s.cells && Change(s, w, h, e) == s
               else Change(s, w, h, e) == Editing(put, s.log + [Record(x, y, s.cells[x][y])])
  {
    var x, y := Fold(e.x, w), Fold(e.y, h);
    assert s.cells[x][y] == e.icon ==> s.cells[x][y := e.icon] == s.cells[x];
  }

  lemma PutValid(s: Editing, w: int, h: int, e: Edit)
    requires MapLog.Valid(s, w, h) && GoodEdit(e, w, h)
    ensures var x, y := Fold(e.x, w), Fold(e.y, h);
            MapLog.Valid(Editing(Put(s.cells, w, h, x, y, e.icon), s.log), w, h) &&
            MapLog.Valid(Change(s, w, h, e), w, h)
  {}

  lemma TabulatePut(c: Cells, d: Cells, w: int, h: int, x: int, y: int, icon: char)
    requires IsMap(c, w, h) && IsMap(d, w, h) && 0 <= x < w && 0 <= y < h
    requires forall i, j :: 0 <= i < w && 0 <= j < h ==> d[i][j] == if i == x && j == y then icon else c[i][j]
    ensures d == Put(c, w, h, x, y, icon)
  {
    forall i | 0 <= i < w ensures d[i] == Put(c, w, h, x, y, icon)[i] {}
  }
}
