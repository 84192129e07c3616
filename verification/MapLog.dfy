/** The undo log of the map editor: what a press of Undo gives back. */
module MapLog {
  import Torus

  /** cells[x][y], as in the editor. */
  type Cells = seq<seq<char>>

  /** One saved cell, or a breakpoint when the icon is a newline. */
  datatype Record = Record(x: int, y: int, icon: char)

  const BREAK := '\n'

  /** A map with its undo log, the newest record last. */
  datatype Editing = Editing(cells: Cells, log: seq<Record>)

  datatype Edit = Edit(x: int, y: int, icon: char)

  predicate IsMap(c: Cells, w: int, h: int) {
    w > 0 && h > 0 && |c| == w && forall x :: 0 <= x < w ==> |c[x]| == h
  }

  predicate NoBreaks(c: Cells) { forall x, y :: 0 <= x < |c| && 0 <= y < |c[x]| ==> c[x][y] != BREAK }

  predicate GoodLog(log: seq<Record>, w: int, h: int) {
    forall r :: r in log && r.icon != BREAK ==> 0 <= r.x < w && 0 <= r.y < h
  }

  predicate Valid(s: Editing, w: int, h: int) { IsMap(s.cells, w, h) && NoBreaks(s.cells) && GoodLog(s.log, w, h) }

  /** Coordinates are brought into the map by adding or subtracting its size at most once. */
  function Fold(x: int, n: int): int {
    var a := if x < 0 then x + n else x;
    if a > n - 1 then a - n else a
  }

  predicate InReach(x: int, n: int) { -n <= x < 2 * n }

  /** Within reach, that is wrapping around the map. */
  lemma FoldWraps(x: int, n: int)
    requires n > 0 && InReach(x, n)
    ensures Fold(x, n) == x % n
  {
    Torus.ModUnique(x, n, if x < 0 then -1 else if x < n then 0 else 1, Fold(x, n));
  }

  predicate GoodEdit(e: Edit, w: int, h: int) { InReach(e.x, w) && InReach(e.y, h) && e.icon != BREAK }

  predicate GoodEdits(es: seq<Edit>, w: int, h: int) { forall e :: e in es ==> GoodEdit(e, w, h) }

  function Cell(c: Cells, w: int, h: int, x: int, y: int): char
    requires IsMap(c, w, h) && InReach(x, w) && InReach(y, h)
  {
    c[Fold(x, w)][Fold(y, h)]
  }

  function Put(c: Cells, w: int, h: int, x: int, y: int, icon: char): (d: Cells)
    requires IsMap(c, w, h) && 0 <= x < w && 0 <= y < h
    ensures IsMap(d, w, h)
  {
    c[x := c[x][y := icon]]
  }

  /** ChangeMapData with save set. */
  function Change(s: Editing, w: int, h: int, e: Edit): (t: Editing)
    requires Valid(s, w, h) && GoodEdit(e, w, h)
    ensures Valid(t, w, h)
  {
    var x, y := Fold(e.x, w), Fold(e.y, h);
    var was := s.cells[x][y];
    if was == e.icon then s
    else Editing(Put(s.cells, w, h, x, y, e.icon), s.log + [Record(x, y, was)])
  }

  /** ClearUndo: the start of a new group. */
  function Broken(s: Editing): Editing { Editing(s.cells, s.log + [Record(0, 0, BREAK)]) }

  lemma BrokenValid(s: Editing, w: int, h: int)
    requires Valid(s, w, h)
    ensures Valid(Broken(s), w, h)
  {}

  /** Writing the icon a cell has already is no change. */
  lemma ChangeSame(s: Editing, w: int, h: int, e: Edit)
    requires Valid(s, w, h) && GoodEdit(e, w, h) && e.icon == Cell(s.cells, w, h, e.x, e.y)
    ensures Change(s, w, h, e) == s
  {}

  function EditAll(s: Editing, w: int, h: int, es: seq<Edit>): (t: Editing)
    requires Valid(s, w, h) && GoodEdits(es, w, h)
    ensures Valid(t, w, h)
  {
    if es == [] then s
    else
      assert es[|es| - 1] in es;
      Change(EditAll(s, w, h, es[..|es| - 1]), w, h, es[|es| - 1])
  }

  /** The newest record is a change still to be undone. */
  predicate Pending(s: Editing) { s.log != [] && s.log[|s.log| - 1].icon != BREAK }

  /** The loop of Undo: restore cells up to the newest breakpoint, which stays. */
  function Unwind(s: Editing, w: int, h: int): (t: Editing)
    requires Valid(s, w, h)
    ensures Valid(t, w, h) && !Pending(t)
    decreases |s.log|
  {
    if !Pending(s) then s
    else
      var r := s.log[|s.log| - 1];
      assert r in s.log;
      Unwind(Editing(Put(s.cells, w, h, r.x, r.y, r.icon), s.log[..|s.log| - 1]), w, h)
  }

  /** A press of Undo: a breakpoint on top is dropped first. */
  function Undone(s: Editing, w: int, h: int): (t: Editing)
    requires Valid(s, w, h)
    ensures Valid(t, w, h)
  {
    if s.log != [] && !Pending(s) then Unwind(Editing(s.cells, s.log[..|s.log| - 1]), w, h) else Unwind(s, w, h)
  }

  // ----- One group

  lemma ChangeUnwinds(s: Editing, w: int, h: int, e: Edit)
    requires Valid(s, w, h) && GoodEdit(e, w, h)
    ensures Unwind(Change(s, w, h, e), w, h) == Unwind(s, w, h)
    ensures Change(s, w, h, e) == s || Pending(Change(s, w, h, e))
    ensures s.log <= Change(s, w, h, e).log
  {
    var t := Change(s, w, h, e);
    var x, y := Fold(e.x, w), Fold(e.y, h);
    if t != s {
      assert t.log[..|t.log| - 1] == s.log;
      assert t.cells[x][y := s.cells[x][y]] == s.cells[x];
      assert Put(t.cells, w, h, x, y, s.cells[x][y]) == s.cells;
    }
  }

  lemma {:induction false} GroupUnwinds(s: Editing, w: int, h: int, es: seq<Edit>)
    requires Valid(s, w, h) && GoodEdits(es, w, h)
    ensures Unwind(EditAll(s, w, h, es), w, h) == Unwind(s, w, h)
    ensures EditAll(s, w, h, es) == s || Pending(EditAll(s, w, h, es))
    ensures s.log <= EditAll(s, w, h, es).log
    ensures EditAll(s, w, h, es) == s <==> EditAll(s, w, h, es).log == s.log
  {
    hide Unwind;
    if es != [] {
      GroupUnwinds(s, w, h, es[..|es| - 1]);
      assert es[|es| - 1] in es;
      ChangeUnwinds(EditAll(s, w, h, es[..|es| - 1]), w, h, es[|es| - 1]);
    }
  }

  /** The state after a group of edits on s. */
  function Grouped(s: Editing, w: int, h: int, es: seq<Edit>): (t: Editing)
    requires Valid(s, w, h) && GoodEdits(es, w, h)
    ensures Valid(t, w, h)
  {
    EditAll(Broken(s), w, h, es)
  }

  /** The group changed some cell, even if a later edit of it changed the cell back. */
  predicate Effective(s: Editing, w: int, h: int, es: seq<Edit>)
    requires Valid(s, w, h) && GoodEdits(es, w, h)
  {
    Grouped(s, w, h, es) != Broken(s)
  }

  /** One press takes back an effective group; a group without effect leaves only its breakpoint to be dropped. */
  lemma PressOnce(s: Editing, w: int, h: int, es: seq<Edit>)
    requires Valid(s, w, h) && GoodEdits(es, w, h)
    ensures Undone(Grouped(s, w, h, es), w, h) == if Effective(s, w, h, es) then Broken(s) else Unwind(s, w, h)
  {
    GroupUnwinds(Broken(s), w, h, es);
    assert Broken(s).log[..|s.log|] == s.log;
  }

  // ----- Many groups

  ghost predicate GoodGroups(gs: seq<seq<Edit>>, w: int, h: int) { forall g :: g in gs ==> GoodEdits(g, w, h) }

  function Session(s: Editing, w: int, h: int, gs: seq<seq<Edit>>): (t: Editing)
    requires Valid(s, w, h) && GoodGroups(gs, w, h)
    ensures Valid(t, w, h)
  {
    if gs == [] then s
    else
      assert gs[|gs| - 1] in gs;
      Grouped(Session(s, w, h, gs[..|gs| - 1]), w, h, gs[|gs| - 1])
  }

  function Presses(s: Editing, w: int, h: int, k: nat): (t: Editing)
    requires Valid(s, w, h)
    ensures Valid(t, w, h)
  {
    if k == 0 then s else Undone(Presses(s, w, h, k - 1), w, h)
  }

  /** Group i of a session changed some cell. */
  predicate EffectiveAt(s: Editing, w: int, h: int, gs: seq<seq<Edit>>, i: nat)
    requires Valid(s, w, h) && GoodGroups(gs, w, h) && i < |gs|
  {
    assert gs[i] in gs;
    Effective(Session(s, w, h, gs[..i]), w, h, gs[i])
  }

  /** k presses give back the map from before the last k groups. */
  lemma {:induction false} UndoRestores(s: Editing, w: int, h: int, gs: seq<seq<Edit>>, k: nat)
    requires Valid(s, w, h) && GoodGroups(gs, w, h) && k <= |gs|
    requires forall i :: |gs| - k <= i < |gs| ==> EffectiveAt(s, w, h, gs, i)
    ensures Presses(Session(s, w, h, gs), w, h, k).cells == Session(s, w, h, gs[..|gs| - k]).cells
    ensures k > 0 ==> Presses(Session(s, w, h, gs), w, h, k) == Broken(Session(s, w, h, gs[..|gs| - k]))
  {
    hide Unwind, Undone, EditAll;
    if k > 0 {
      UndoRestores(s, w, h, gs, k - 1);
      var n := |gs| - k;
      var before, after := gs[..n], gs[..n + 1];
      assert gs[n] in gs && EffectiveAt(s, w, h, gs, n);
      assert after[..n] == before && after[n] == gs[n];
      var r := Session(s, w, h, before);
      assert Session(s, w, h, after) == Grouped(r, w, h, gs[n]);
      PressOnce(r, w, h, gs[n]);
      GroupUnwinds(Broken(r), w, h, gs[n]);
      if k == 1 {
        assert after == gs;
      } else {
        BreakOnTop(Session(s, w, h, after), w, h);
      }
    } else {
      assert gs[..|gs|] == gs;
    }
  }

  /** A breakpoint above a pending change makes no difference to the next press. */
  lemma BreakOnTop(s: Editing, w: int, h: int)
    requires Valid(s, w, h) && Pending(s)
    ensures Undone(Broken(s), w, h) == Undone(s, w, h) == Unwind(s, w, h)
  {
    assert Broken(s).log[..|s.log|] == s.log;
  }

  /** The press after a group gives back the map from before it exactly when the group, or else the group
      before it, does not spoil it: an ineffective group lets the press reach the effective one before. */
  lemma PressExactly(r: Editing, w: int, h: int, gs: seq<Edit>, es: seq<Edit>)
    requires Valid(r, w, h) && GoodEdits(gs, w, h) && GoodEdits(es, w, h)
    ensures var s := Grouped(r, w, h, gs);
            Undone(Grouped(s, w, h, es), w, h).cells == s.cells <==>
            Effective(s, w, h, es) || !Effective(r, w, h, gs) || r.cells == s.cells
  {
    var s := Grouped(r, w, h, gs);
    PressOnce(s, w, h, es);
    GroupUnwinds(Broken(r), w, h, gs);
  }

  /** After two ineffective groups the press changes nothing at all. */
  lemma DeadPress(r: Editing, w: int, h: int, gs: seq<Edit>, es: seq<Edit>)
    requires Valid(r, w, h) && GoodEdits(gs, w, h) && GoodEdits(es, w, h)
    requires !Effective(r, w, h, gs) && !Effective(Grouped(r, w, h, gs), w, h, es)
    ensures Undone(Grouped(Grouped(r, w, h, gs), w, h, es), w, h) == Grouped(r, w, h, gs)
  {
    PressOnce(Grouped(r, w, h, gs), w, h, es);
  }

  /** On a map of one cell: a change, then writing what is there already; the press after it takes back the change. */
  lemma IdleGroupSpoils()
    ensures var s := Editing([['.']], []); var gs, es := [Edit(0, 0, 'x')], [Edit(0, 0, 'x')];
            Valid(s, 1, 1) && GoodEdits(gs, 1, 1) && GoodEdits(es, 1, 1) && Effective(s, 1, 1, gs) &&
            Grouped(s, 1, 1, gs).cells == [['x']] &&
            Undone(Grouped(Grouped(s, 1, 1, gs), 1, 1, es), 1, 1).cells == [['.']]
  {
    var s := Editing([['.']], []);
    var e := Edit(0, 0, 'x');
    assert [e][..0] == [];
    assert EditAll(Broken(s), 1, 1, []) == Broken(s);
    var t := Grouped(s, 1, 1, [e]);
    assert t == Change(Broken(s), 1, 1, e);
    assert ['.'][0 := 'x'] == ['x'];
    assert t.cells == s.cells[0 := ['x']] == [['x']];
    assert EditAll(Broken(t), 1, 1, []) == Broken(t);
    assert Grouped(t, 1, 1, [e]) == Change(Broken(t), 1, 1, e) == Broken(t);
    PressOnce(t, 1, 1, [e]);
    GroupUnwinds(Broken(s), 1, 1, [e]);
    assert Unwind(Broken(s), 1, 1) == Broken(s);
  }
}
