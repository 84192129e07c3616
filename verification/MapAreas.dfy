/** Edits of a selected area, cell by cell. */
module MapAreas {
  import opened Torus
  import opened MapLog
  import Blocks

  /** Columns x1 .. x2 - 1 and rows y1 .. y2 - 1, which may reach across the edges of the map. */
  datatype Area = Area(x1: int, y1: int, x2: int, y2: int)

  predicate AreaInReach(a: Area, w: int, h: int) {
    a.x1 < a.x2 && a.y1 < a.y2 && -w <= a.x1 && a.x2 <= 2 * w && -h <= a.y1 && a.y2 <= 2 * h
  }

  predicate PointInReach(p: Vec, w: int, h: int) { InReach(p.x, w) && InReach(p.y, h) }

  predicate InArea(a: Area, p: Vec) { a.x1 <= p.x < a.x2 && a.y1 <= p.y < a.y2 }

  /** The first rows of column x. */
  function ColumnTo(x: int, y1: int, y: int): (ps: seq<Vec>)
    requires y1 <= y
    ensures |ps| == y - y1 && forall k :: 0 <= k < |ps| ==> ps[k] == Vec(x, y1 + k)
  {
    seq(y - y1, k requires 0 <= k => Vec(x, y1 + k))
  }

  /** The points of the columns before x, then those of column x above y: the order of the loops. */
  function PointsTo(a: Area, x: int, y: int): (ps: seq<Vec>)
    requires a.x1 <= x && a.y1 <= y && a.y1 < a.y2
    decreases x - a.x1
  {
    (if x == a.x1 then [] else PointsTo(a, x - 1, a.y2)) + ColumnTo(x, a.y1, y)
  }

  function Points(a: Area): seq<Vec>
    requires a.x1 < a.x2 && a.y1 < a.y2
  {
    PointsTo(a, a.x2, a.y1)
  }

  lemma {:induction false} PointsAre(a: Area, x: int, y: int)
    requires a.x1 <= x && a.y1 <= y && a.y1 < a.y2
    ensures forall p :: p in PointsTo(a, x, y) <==>
            a.y1 <= p.y && a.x1 <= p.x <= x && (if p.x < x then p.y < a.y2 else p.y < y)
    decreases x - a.x1
  {
    ColumnIs(x, a.y1, y);
    hide ColumnTo;
    if x > a.x1 { PointsAre(a, x - 1, a.y2); }
  }

  lemma ColumnIs(x: int, y1: int, y: int)
    requires y1 <= y
    ensures forall p :: p in ColumnTo(x, y1, y) <==> p.x == x && y1 <= p.y < y
  {
    forall p
      ensures p in ColumnTo(x, y1, y) <==> p.x == x && y1 <= p.y < y
    {
      if p.x == x && y1 <= p.y < y { assert ColumnTo(x, y1, y)[p.y - y1] == p; }
    }
  }

  lemma PointsNext(a: Area, x: int, y: int)
    requires a.x1 <= x && a.y1 <= y < a.y2
    ensures PointsTo(a, x, y + 1) == PointsTo(a, x, y) + [Vec(x, y)]
    ensures PointsTo(a, x + 1, a.y1) == PointsTo(a, x, a.y2)
  {
    assert ColumnTo(x, a.y1, y + 1) == ColumnTo(x, a.y1, y) + [Vec(x, y)];
    assert ColumnTo(x + 1, a.y1, a.y1) == [];
  }

  /** What an operation writes to a cell, from its present icon and the point where the loops meet it. */
  type Choice = (char, Vec) -> char

  ghost predicate Proper(f: Choice) { forall c, p :: c != BREAK ==> f(c, p) != BREAK }

  ghost predicate InReachAll(ps: seq<Vec>, w: int, h: int) { forall p :: p in ps ==> PointInReach(p, w, h) }

  /** The operation on the points in order. */
  ghost function Each(s: Editing, w: int, h: int, ps: seq<Vec>, f: Choice): (t: Editing)
    requires Valid(s, w, h) && InReachAll(ps, w, h) && Proper(f)
    ensures Valid(t, w, h)
  {
    if ps == [] then s
    else
      var p := ps[|ps| - 1];
      assert p in ps;
      var r := Each(s, w, h, ps[..|ps| - 1], f);
      Change(r, w, h, Edit(p.x, p.y, f(Cell(r.cells, w, h, p.x, p.y), p)))
  }

  /** An operation on an area is one group of edits, so that the theorems about the log apply to it. */
  lemma {:induction false} EachIsEdits(s: Editing, w: int, h: int, ps: seq<Vec>, f: Choice) returns (es: seq<Edit>)
    requires Valid(s, w, h) && InReachAll(ps, w, h) && Proper(f)
    ensures GoodEdits(es, w, h) && EditAll(s, w, h, es) == Each(s, w, h, ps, f)
  {
    if ps == [] {
      es := [];
    } else {
      var p := ps[|ps| - 1];
      assert p in ps;
      var r := Each(s, w, h, ps[..|ps| - 1], f);
      var before := EachIsEdits(s, w, h, ps[..|ps| - 1], f);
      es := before + [Edit(p.x, p.y, f(Cell(r.cells, w, h, p.x, p.y), p))];
      assert es[..|es| - 1] == before;
    }
  }

  /** One press after an operation that changed something restores the map. */
  lemma UndoEach(s: Editing, w: int, h: int, ps: seq<Vec>, f: Choice)
    requires Valid(s, w, h) && InReachAll(ps, w, h) && Proper(f)
    requires Each(Broken(s), w, h, ps, f) != Broken(s)
    ensures Undone(Each(Broken(s), w, h, ps, f), w, h) == Broken(s)
  {
    var es := EachIsEdits(Broken(s), w, h, ps, f);
    PressOnce(s, w, h, es);
  }

  predicate Lands(p: Vec, q: Vec, w: int, h: int) { Fold(p.x, w) == q.x && Fold(p.y, h) == q.y }

  /** The icon of cell q after the operation, from its icon before: only visits to q count. */
  ghost function Visited(ps: seq<Vec>, f: Choice, w: int, h: int, q: Vec, c: char): char {
    if ps == [] then c
    else
      var p, d := ps[|ps| - 1], Visited(ps[..|ps| - 1], f, w, h, q, c);
      if Lands(p, q, w, h) then f(d, p) else d
  }

  lemma {:induction false} EachCell(s: Editing, w: int, h: int, ps: seq<Vec>, f: Choice, q: Vec)
    requires Valid(s, w, h) && InReachAll(ps, w, h) && Proper(f) && 0 <= q.x < w && 0 <= q.y < h
    ensures Each(s, w, h, ps, f).cells[q.x][q.y] == Visited(ps, f, w, h, q, s.cells[q.x][q.y])
  {
    if ps != [] {
      EachCell(s, w, h, ps[..|ps| - 1], f, q);
      assert ps[|ps| - 1] in ps;
    }
  }

  // ----- Fill

  function Filling(icon: char): Choice { (c: char, p: Vec) => icon }

  predicate Hit(ps: seq<Vec>, q: Vec, w: int, h: int) { exists p :: p in ps && Lands(p, q, w, h) }

  lemma {:induction false} HitLast(ps: seq<Vec>, q: Vec, w: int, h: int)
    requires ps != []
    ensures Hit(ps, q, w, h) <==> Hit(ps[..|ps| - 1], q, w, h) || Lands(ps[|ps| - 1], q, w, h)
  {
    assert ps == ps[..|ps| - 1] + [ps[|ps| - 1]];
    assert ps[|ps| - 1] in ps;
    assert forall p :: p in ps <==> p in ps[..|ps| - 1] || p == ps[|ps| - 1];
  }

  /** Fill leaves the icon exactly on the cells the area covers. */
  lemma {:induction false} FilledCell(ps: seq<Vec>, icon: char, w: int, h: int, q: Vec, c: char)
    ensures Visited(ps, Filling(icon), w, h, q, c) == if Hit(ps, q, w, h) then icon else c
  {
    if ps != [] {
      FilledCell(ps[..|ps| - 1], icon, w, h, q, c);
      HitLast(ps, q, w, h);
    }
  }

  // ----- Negative

  function Negated(c: char): char {
    match c
    case ' ' => 'x'
    case 'x' => ' '
    case 'q' => 's'
    case 's' => 'q'
    case 'w' => 'a'
    case 'a' => 'w'
    case _ => c
  }

  /** The negative of a space, a full or a half block fills exactly what that one leaves open; other icons stay. */
  lemma NegatedFills(c: char, d: Dir)
    ensures if c in {' ', 'x', 'q', 'a', 'w', 's'}
            then Blocks.Fills(Blocks.BlockOf(Negated(c)), d) <==> !Blocks.Fills(Blocks.BlockOf(c), d)
            else Negated(c) == c
  {}

  function Negating(): Choice { (c: char, p: Vec) => Negated(c) }

  lemma {:induction false} NegatedFrom(ps: seq<Vec>, w: int, h: int, q: Vec, c: char)
    ensures Visited(ps, Negating(), w, h, q, Negated(c)) == Negated(Visited(ps, Negating(), w, h, q, c))
  {
    if ps != [] { NegatedFrom(ps[..|ps| - 1], w, h, q, c); }
  }

  lemma {:induction false} NegatedTwice(ps: seq<Vec>, w: int, h: int, q: Vec, c: char)
    ensures Visited(ps, Negating(), w, h, q, Visited(ps, Negating(), w, h, q, c)) == c
  {
    if ps != [] {
      NegatedTwice(ps[..|ps| - 1], w, h, q, c);
      var d := Visited(ps[..|ps| - 1], Negating(), w, h, q, c);
      NegatedFrom(ps[..|ps| - 1], w, h, q, d);
    }
  }

  lemma MapsAgree(c: Cells, d: Cells, w: int, h: int)
    requires IsMap(c, w, h) && IsMap(d, w, h)
    requires forall q: Vec :: 0 <= q.x < w && 0 <= q.y < h ==> c[q.x][q.y] == d[q.x][q.y]
    ensures c == d
  {
    forall x | 0 <= x < w ensures c[x] == d[x] {
      forall y | 0 <= y < h ensures c[x][y] == d[x][y] {
        assert var q := Vec(x, y); c[q.x][q.y] == d[q.x][q.y];
      }
    }
  }

  /** Negative applied twice gives the map back, even when the area covers some cells more than once. */
  lemma NegativeTwice(s: Editing, w: int, h: int, ps: seq<Vec>)
    requires Valid(s, w, h) && InReachAll(ps, w, h)
    ensures Proper(Negating())
    ensures var t := Each(Broken(s), w, h, ps, Negating());
            Each(Broken(t), w, h, ps, Negating()).cells == s.cells
  {
    var t := Each(Broken(s), w, h, ps, Negating());
    var u := Each(Broken(t), w, h, ps, Negating());
    forall q: Vec | 0 <= q.x < w && 0 <= q.y < h
      ensures u.cells[q.x][q.y] == s.cells[q.x][q.y]
    {
      EachCell(Broken(s), w, h, ps, Negating(), q);
      EachCell(Broken(t), w, h, ps, Negating(), q);
      NegatedTwice(ps, w, h, q, s.cells[q.x][q.y]);
    }
    MapsAgree(u.cells, s.cells, w, h);
  }

  // ----- Cut and Paste

  /** The clipboard of a cut: a cell met again is already blank. */
  function CutIcon(c: Cells, w: int, h: int, ps: seq<Vec>, k: nat): char
    requires IsMap(c, w, h) && InReachAll(ps, w, h) && k < |ps|
  {
    var p := ps[k];
    assert p in ps;
    if Hit(ps[..k], Vec(Fold(p.x, w), Fold(p.y, h)), w, h) then ' ' else Cell(c, w, h, p.x, p.y)
  }

  /** Paste of the clip of a's points, blanks excepted. */
  function Pasting(clip: Cells, a: Area): Choice {
    (c: char, p: Vec) =>
      if 0 <= p.x - a.x1 < |clip| && 0 <= p.y - a.y1 < |clip[p.x - a.x1]| && clip[p.x - a.x1][p.y - a.y1] != ' '
      then clip[p.x - a.x1][p.y - a.y1] else c
  }

  /** The clipboard holds what a cut of the first n points stores. */
  ghost predicate CutClip(clip: Cells, a: Area, c: Cells, w: int, h: int, ps: seq<Vec>, n: int)
    requires IsMap(c, w, h) && InReachAll(ps, w, h) && n <= |ps|
  {
    forall k :: 0 <= k < n ==>
      0 <= ps[k].x - a.x1 < |clip| && 0 <= ps[k].y - a.y1 < |clip[ps[k].x - a.x1]| &&
      clip[ps[k].x - a.x1][ps[k].y - a.y1] == CutIcon(c, w, h, ps, k)
  }

  lemma VisitedNext(ps: seq<Vec>, f: Choice, w: int, h: int, q: Vec, c: char, n: nat)
    requires 0 < n <= |ps|
    ensures var d := Visited(ps[..n - 1], f, w, h, q, c);
            Visited(ps[..n], f, w, h, q, c) == if Lands(ps[n - 1], q, w, h) then f(d, ps[n - 1]) else d
    ensures Hit(ps[..n], q, w, h) <==> Hit(ps[..n - 1], q, w, h) || Lands(ps[n - 1], q, w, h)
  {
    hide Hit;
    assert ps[..n][..n - 1] == ps[..n - 1];
    HitLast(ps[..n], q, w, h);
  }

  lemma CutIconAt(c: Cells, w: int, h: int, ps: seq<Vec>, k: nat, q: Vec)
    requires IsMap(c, w, h) && InReachAll(ps, w, h) && k < |ps| && Lands(ps[k], q, w, h)
    ensures 0 <= q.x < w && 0 <= q.y < h
    ensures CutIcon(c, w, h, ps, k) == if Hit(ps[..k], q, w, h) then ' ' else c[q.x][q.y]
  {
    hide Hit;
    assert ps[k] in ps;
    assert Vec(Fold(ps[k].x, w), Fold(ps[k].y, h)) == q;
  }

  lemma PastedAt(clip: Cells, a: Area, c: Cells, w: int, h: int, ps: seq<Vec>, k: nat, d: char)
    requires IsMap(c, w, h) && InReachAll(ps, w, h) && k < |ps| && CutClip(clip, a, c, w, h, ps, |ps|)
    ensures var icon := CutIcon(c, w, h, ps, k); Pasting(clip, a)(d, ps[k]) == if icon != ' ' then icon else d
  {
    hide CutIcon, InReachAll;
  }

  lemma {:induction false} PastedCell(clip: Cells, a: Area, c: Cells, w: int, h: int, ps: seq<Vec>, n: nat, q: Vec)
    requires IsMap(c, w, h) && InReachAll(ps, w, h) && n <= |ps| && CutClip(clip, a, c, w, h, ps, |ps|)
    requires 0 <= q.x < w && 0 <= q.y < h
    ensures Visited(ps[..n], Pasting(clip, a), w, h, q, ' ') == if Hit(ps[..n], q, w, h) then c[q.x][q.y] else ' '
  {
    if n > 0 {
      hide Visited, Hit, CutIcon, CutClip, Pasting;
      PastedCell(clip, a, c, w, h, ps, n - 1, q);
      VisitedNext(ps, Pasting(clip, a), w, h, q, ' ', n);
      if Lands(ps[n - 1], q, w, h) {
        CutIconAt(c, w, h, ps, n - 1, q);
        PastedAt(clip, a, c, w, h, ps, n - 1, Visited(ps[..n - 1], Pasting(clip, a), w, h, q, ' '));
      }
    } else {
      assert ps[..n] == [];
    }
  }

  lemma {:induction false} UnvisitedCell(ps: seq<Vec>, f: Choice, w: int, h: int, q: Vec, c: char)
    requires !Hit(ps, q, w, h)
    ensures Visited(ps, f, w, h, q, c) == c
  {
    if ps != [] {
      HitLast(ps, q, w, h);
      UnvisitedCell(ps[..|ps| - 1], f, w, h, q, c);
    }
  }

  /** Cut, then Paste at the same place, gives the map back, even when the area covers some cells more than once. */
  lemma CutThenPaste(s: Editing, w: int, h: int, ps: seq<Vec>, clip: Cells, a: Area)
    requires Valid(s, w, h) && InReachAll(ps, w, h) && CutClip(clip, a, s.cells, w, h, ps, |ps|) && NoBreaks(clip)
    ensures Proper(Pasting(clip, a))
    ensures var t := Each(Broken(s), w, h, ps, Filling(' '));
            Each(Broken(t), w, h, ps, Pasting(clip, a)).cells == s.cells
  {
    var t := Each(Broken(s), w, h, ps, Filling(' '));
    var u := Each(Broken(t), w, h, ps, Pasting(clip, a));
    forall q: Vec | 0 <= q.x < w && 0 <= q.y < h
      ensures u.cells[q.x][q.y] == s.cells[q.x][q.y]
    {
      EachCell(Broken(s), w, h, ps, Filling(' '), q);
      EachCell(Broken(t), w, h, ps, Pasting(clip, a), q);
      FilledCell(ps, ' ', w, h, q, s.cells[q.x][q.y]);
      if Hit(ps, q, w, h) {
        PastedCell(clip, a, s.cells, w, h, ps, |ps|, q);
        assert ps[..|ps|] == ps;
      } else {
        UnvisitedCell(ps, Pasting(clip, a), w, h, q, s.cells[q.x][q.y]);
      }
    }
    MapsAgree(u.cells, s.cells, w, h);
  }

  // ----- The loops

  predicate LoopAt(a: Area, w: int, h: int, x: int, y: int) {
    AreaInReach(a, w, h) && a.x1 <= x <= a.x2 && a.y1 <= y <= a.y2 && (x == a.x2 ==> y == a.y1)
  }

  lemma PointsInReach(a: Area, w: int, h: int, x: int, y: int)
    requires LoopAt(a, w, h, x, y)
    ensures InReachAll(PointsTo(a, x, y), w, h)
  {
    PointsAre(a, x, y);
  }

  /** The state when the loops of an operation started on s have come to column x, row y. */
  ghost function Run(s: Editing, w: int, h: int, a: Area, f: Choice, x: int, y: int): (t: Editing)
    requires Valid(s, w, h) && LoopAt(a, w, h, x, y) && Proper(f)
    ensures Valid(t, w, h)
  {
    PointsInReach(a, w, h, x, y);
    Each(s, w, h, PointsTo(a, x, y), f)
  }

  lemma RunStart(s: Editing, w: int, h: int, a: Area, f: Choice)
    requires Valid(s, w, h) && AreaInReach(a, w, h) && Proper(f)
    ensures Run(s, w, h, a, f, a.x1, a.y1) == s
  {
    assert PointsTo(a, a.x1, a.y1) == [];
  }

  lemma RunNext(s: Editing, w: int, h: int, a: Area, f: Choice, x: int, y: int)
    requires Valid(s, w, h) && LoopAt(a, w, h, x, y) && x < a.x2 && y < a.y2 && Proper(f)
    ensures PointInReach(Vec(x, y), w, h)
    ensures var t := Run(s, w, h, a, f, x, y); var c := f(Cell(t.cells, w, h, x, y), Vec(x, y));
            c != BREAK && Run(s, w, h, a, f, x, y + 1) == Change(t, w, h, Edit(x, y, c))
  {
    PointsNext(a, x, y);
    PointsInReach(a, w, h, x, y);
    PointsInReach(a, w, h, x, y + 1);
    var t := Run(s, w, h, a, f, x, y);
    assert Cell(t.cells, w, h, x, y) != BREAK;
    var ps := PointsTo(a, x, y + 1);
    assert ps[..|ps| - 1] == PointsTo(a, x, y) && ps[|ps| - 1] == Vec(x, y);
  }

  lemma RunColumn(s: Editing, w: int, h: int, a: Area, f: Choice, x: int)
    requires Valid(s, w, h) && AreaInReach(a, w, h) && a.x1 <= x < a.x2 && Proper(f)
    ensures Run(s, w, h, a, f, x + 1, a.y1) == Run(s, w, h, a, f, x, a.y2)
  {
    PointsNext(a, x, a.y1);
  }

  /** The clipboard when the loops of a cut have come to column x, row y. */
  ghost predicate CutTo(clip: Cells, a: Area, c: Cells, w: int, h: int, x: int, y: int)
    requires IsMap(c, w, h) && LoopAt(a, w, h, x, y)
  {
    PointsInReach(a, w, h, x, y);
    CutClip(clip, a, c, w, h, PointsTo(a, x, y), |PointsTo(a, x, y)|)
  }

  lemma CutStart(clip: Cells, a: Area, c: Cells, w: int, h: int)
    requires IsMap(c, w, h) && AreaInReach(a, w, h)
    ensures CutTo(clip, a, c, w, h, a.x1, a.y1)
  {
    assert PointsTo(a, a.x1, a.y1) == [];
  }

  lemma CutColumn(clip: Cells, a: Area, c: Cells, w: int, h: int, x: int)
    requires IsMap(c, w, h) && AreaInReach(a, w, h) && a.x1 <= x < a.x2
    ensures CutTo(clip, a, c, w, h, x + 1, a.y1) == CutTo(clip, a, c, w, h, x, a.y2)
  {
    PointsNext(a, x, a.y1);
  }

  lemma CutIconNow(a: Area, s: Editing, w: int, h: int, x: int, y: int)
    requires Valid(s, w, h) && LoopAt(a, w, h, x, y) && x < a.x2 && y < a.y2
    ensures PointInReach(Vec(x, y), w, h) && InReachAll(PointsTo(a, x, y + 1), w, h)
    ensures CutIcon(s.cells, w, h, PointsTo(a, x, y + 1), |PointsTo(a, x, y)|) ==
            Cell(Run(Broken(s), w, h, a, Filling(' '), x, y).cells, w, h, x, y)
  {
    hide Visited, Hit, NoBreaks, GoodLog;
    var ps, next := PointsTo(a, x, y), PointsTo(a, x, y + 1);
    PointsNext(a, x, y);
    PointsInReach(a, w, h, x, y);
    PointsInReach(a, w, h, x, y + 1);
    assert next[|ps|] in next;
    var q := Vec(Fold(x, w), Fold(y, h));
    BrokenValid(s, w, h);
    EachCell(Broken(s), w, h, ps, Filling(' '), q);
    FilledCell(ps, ' ', w, h, q, s.cells[q.x][q.y]);
    CutIconAt(s.cells, w, h, next, |ps|, q);
    assert next[..|ps|] == ps;
  }

  lemma CutIconPrefix(c: Cells, w: int, h: int, ps: seq<Vec>, p: Vec, k: nat)
    requires IsMap(c, w, h) && InReachAll(ps + [p], w, h) && InReachAll(ps, w, h) && k < |ps|
    ensures CutIcon(c, w, h, ps + [p], k) == CutIcon(c, w, h, ps, k)
  {
    hide Hit;
    assert (ps + [p])[..k] == ps[..k];
  }

  lemma PutAt(c: Cells, n: int, x: int, y: int, icon: char, i: int, j: int)
    requires IsMap(c, n, n) && 0 <= x < n && 0 <= y < n && 0 <= i < n && 0 <= j < n
    ensures Put(c, n, n, x, y, icon)[i][j] == if i == x && j == y then icon else c[i][j]
  {}

  /** Storing what the cut finds at the next point extends its clipboard. */
  lemma CutNext(clip: Cells, a: Area, s: Editing, w: int, h: int, x: int, y: int, n: int, icon: char)
    requires Valid(s, w, h) && LoopAt(a, w, h, x, y) && x < a.x2 && y < a.y2
    requires IsMap(clip, n, n) && a.x2 - a.x1 <= n && a.y2 - a.y1 <= n && CutTo(clip, a, s.cells, w, h, x, y)
    requires PointInReach(Vec(x, y), w, h) &&
             icon == Cell(Run(Broken(s), w, h, a, Filling(' '), x, y).cells, w, h, x, y)
    ensures CutTo(Put(clip, n, n, x - a.x1, y - a.y1, icon), a, s.cells, w, h, x, y + 1)
  {
    hide PointsTo, Run, CutIcon, Cell, NoBreaks, GoodLog, Put, Visited;
    var ps, next, p := PointsTo(a, x, y), PointsTo(a, x, y + 1), Vec(x, y);
    PointsNext(a, x, y);
    PointsAre(a, x, y);
    PointsInReach(a, w, h, x, y);
    PointsInReach(a, w, h, x, y + 1);
    CutIconNow(a, s, w, h, x, y);
    var more := Put(clip, n, n, x - a.x1, y - a.y1, icon);
    forall k | 0 <= k < |next|
      ensures 0 <= next[k].x - a.x1 < |more| && 0 <= next[k].y - a.y1 < |more[next[k].x - a.x1]|
      ensures more[next[k].x - a.x1][next[k].y - a.y1] == CutIcon(s.cells, w, h, next, k)
    {
      if k < |ps| {
        assert ps[k] in ps && next[k] == ps[k];
        CutIconPrefix(s.cells, w, h, ps, p, k);
        PutAt(clip, n, x - a.x1, y - a.y1, icon, ps[k].x - a.x1, ps[k].y - a.y1);
      } else {
        PutAt(clip, n, x - a.x1, y - a.y1, icon, x - a.x1, y - a.y1);
      }
    }
  }

  /** The clipboard is blank beyond the size of the area. */
  predicate BlankBeyond(clip: Cells, a: Area) {
    forall i, j :: 0 <= i < |clip| && 0 <= j < |clip[i]| && !(i < a.x2 - a.x1 && j < a.y2 - a.y1) ==> clip[i][j] == ' '
  }

  lemma BlankStart(clip: Cells, a: Area, c: Cells, w: int, h: int)
    requires IsMap(c, w, h) && AreaInReach(a, w, h)
    requires forall i, j :: 0 <= i < |clip| && 0 <= j < |clip[i]| ==> clip[i][j] == ' '
    ensures NoBreaks(clip) && BlankBeyond(clip, a)
    ensures CutTo(clip, a, c, w, h, a.x1, a.y1) && CopiedTo(clip, a, c, w, h, a.x1, a.y1)
  {
    CutStart(clip, a, c, w, h);
  }

  lemma KeepsClean(clip: Cells, a: Area, x: int, y: int, n: int, icon: char)
    requires IsMap(clip, n, n) && a.x1 <= x < a.x2 && a.y1 <= y < a.y2 && a.x2 - a.x1 <= n && a.y2 - a.y1 <= n
    requires NoBreaks(clip) && BlankBeyond(clip, a) && icon != BREAK
    ensures var more := Put(clip, n, n, x - a.x1, y - a.y1, icon); NoBreaks(more) && BlankBeyond(more, a)
  {}

  /** The clipboard holds the area as far as column x, row y. */
  ghost predicate CopiedTo(clip: Cells, a: Area, c: Cells, w: int, h: int, x: int, y: int)
    requires IsMap(c, w, h) && AreaInReach(a, w, h)
  {
    forall p :: InArea(a, p) && (p.x < x || (p.x == x && p.y < y)) ==>
      p.x - a.x1 < |clip| && p.y - a.y1 < |clip[p.x - a.x1]| && clip[p.x - a.x1][p.y - a.y1] == Cell(c, w, h, p.x, p.y)
  }

  lemma CopyNext(clip: Cells, a: Area, c: Cells, w: int, h: int, x: int, y: int, n: int, icon: char)
    requires IsMap(c, w, h) && AreaInReach(a, w, h) && a.x1 <= x < a.x2 && a.y1 <= y < a.y2
    requires IsMap(clip, n, n) && a.x2 - a.x1 <= n && a.y2 - a.y1 <= n && NoBreaks(clip) && BlankBeyond(clip, a)
    requires CopiedTo(clip, a, c, w, h, x, y) && icon == Cell(c, w, h, x, y) && icon != BREAK
    ensures var more := Put(clip, n, n, x - a.x1, y - a.y1, icon);
            CopiedTo(more, a, c, w, h, x, y + 1) && NoBreaks(more) && BlankBeyond(more, a)
  {
    KeepsClean(clip, a, x, y, n, icon);
  }

  lemma CopyColumn(clip: Cells, a: Area, c: Cells, w: int, h: int, x: int)
    requires IsMap(c, w, h) && AreaInReach(a, w, h)
    ensures CopiedTo(clip, a, c, w, h, x + 1, a.y1) == CopiedTo(clip, a, c, w, h, x, a.y2)
  {}

  lemma PastingAt(clip: Cells, a: Area, n: int, p: Vec, c: char)
    requires IsMap(clip, n, n) && 0 <= p.x - a.x1 < n && 0 <= p.y - a.y1 < n
    ensures var icon := clip[p.x - a.x1][p.y - a.y1]; Pasting(clip, a)(c, p) == if icon != ' ' then icon else c
  {}

  lemma PasteProper(clip: Cells, a: Area)
    requires NoBreaks(clip)
    ensures Proper(Pasting(clip, a))
  {}

  lemma NeverBreak(s: Editing, w: int, h: int, x: int, y: int)
    requires Valid(s, w, h) && PointInReach(Vec(x, y), w, h)
    ensures Cell(s.cells, w, h, x, y) != BREAK
  {}
}
