/** The records of a closed outline, begun elsewhere and without those that lead nowhere: the same closed walk. */
module RecordWalks {
  import opened Torus
  import opened Outline
  import opened EdgeCover
  import opened Tour
  import opened Conversion
  import opened VisibleRecs
  import EdgeRuns

  function AsEdges(recs: seq<Rec>): (p: seq<EdgeRuns.Edge>)
    ensures |p| == |recs| && forall i :: 0 <= i < |recs| ==> p[i] == EdgeRuns.Edge(recs[i].off, recs[i].hidden)
  {
    seq(|recs|, i requires 0 <= i < |recs| => EdgeRuns.Edge(recs[i].off, recs[i].hidden))
  }

  /** The records after the last has been moved to the front k times. */
  function TurnedRecs(recs: seq<Rec>, k: nat): seq<Rec>
    requires k <= |recs|
  {
    recs[|recs| - k..] + recs[..|recs| - k]
  }

  /** The records that lead somewhere. */
  function MovingRecs(recs: seq<Rec>): seq<Rec> {
    if recs == [] then []
    else
      var n := |recs| - 1;
      MovingRecs(recs[..n]) + if recs[n].off == Vec(0, 0) then [] else [recs[n]]
  }

  lemma {:induction false} MovingLast(recs: seq<Rec>)
    requires recs != []
    ensures var n := |recs| - 1; var less := MovingRecs(recs[..n]);
            MovingRecs(recs) == if recs[n].off == Vec(0, 0) then less else less + [recs[n]]
  {
    assert MovingRecs(recs[..|recs| - 1]) + [] == MovingRecs(recs[..|recs| - 1]);
  }

  lemma {:induction false} MovingFirst(recs: seq<Rec>)
    requires recs != [] && recs[0].off != Vec(0, 0)
    ensures MovingRecs(recs) != [] && MovingRecs(recs)[0] == recs[0]
    decreases |recs|
  {
    if |recs| > 1 { MovingFirst(recs[..|recs| - 1]); }
  }

  lemma {:induction false} EdgesOfSum(a: seq<Rec>, b: seq<Rec>)
    ensures AsEdges(a + b) == AsEdges(a) + AsEdges(b)
  {}

  lemma {:induction false} TurnedEdges(recs: seq<Rec>, k: nat)
    requires k <= |recs|
    ensures AsEdges(TurnedRecs(recs, k)) == EdgeRuns.Turned(AsEdges(recs), k)
  {}

  lemma {:induction false} MovingEdges(recs: seq<Rec>)
    ensures AsEdges(MovingRecs(recs)) == EdgeRuns.Moving(AsEdges(recs))
    decreases |recs|
  {
    if recs != [] {
      var n := |recs| - 1;
      MovingEdges(recs[..n]);
      assert AsEdges(recs)[..n] == AsEdges(recs[..n]);
      EdgesOfSum(MovingRecs(recs[..n]), if recs[n].off == Vec(0, 0) then [] else [recs[n]]);
    }
  }

  lemma {:induction false} EdgesTotal(recs: seq<Rec>)
    ensures EdgeRuns.Total(AsEdges(recs)) == OffsetSum(recs)
    decreases |recs|
  {
    if recs != [] {
      EdgesTotal(recs[..|recs| - 1]);
      assert AsEdges(recs)[..|recs| - 1] == AsEdges(recs[..|recs| - 1]);
    }
  }

  // ----- Places

  /** The records before record j lead there. */
  lemma {:induction false} LeadsHere(recs: seq<Rec>, a: Vec, b: Vec, j: nat, width: int, height: int)
    requires width > 0 && height > 0 && Leads(recs, a, b, width, height, false) && j < |recs|
    ensures Leads(recs[..j], a, recs[j].pos, width, height, false)
    decreases |recs|
  {
    var n := |recs| - 1;
    if j < n {
      LeadsHere(recs[..n], a, recs[n].pos, j, width, height);
      assert recs[..n][..j] == recs[..j];
    }
  }

  /** And those from record j on lead from there. */
  lemma {:induction false} LeadsFrom(recs: seq<Rec>, a: Vec, b: Vec, j: nat, width: int, height: int)
    requires width > 0 && height > 0 && Leads(recs, a, b, width, height, false) && j < |recs|
    ensures Leads(recs[j..], recs[j].pos, b, width, height, false)
    decreases |recs|
  {
    var n := |recs| - 1;
    if j < n {
      LeadsFrom(recs[..n], a, recs[n].pos, j, width, height);
      assert recs[j..][..n - j] == recs[..n][j..];
    } else {
      assert recs[j..] == [recs[j]] && recs[j..][..0] == [];
    }
  }

  /** A closed walk may begin at any of its records. */
  lemma {:induction false} TurnedLeads(recs: seq<Rec>, a: Vec, k: nat, width: int, height: int)
    requires width > 0 && height > 0 && Leads(recs, a, a, width, height, false) && k <= |recs| && recs != []
    requires recs[0].pos == a
    ensures var walk := TurnedRecs(recs, k); walk != [] && Leads(walk, walk[0].pos, walk[0].pos, width, height, false)
  {
    hide Leads;
    if 0 < k {
      var j := |recs| - k;
      LeadsHere(recs, a, a, j, width, height);
      LeadsFrom(recs, a, a, j, width, height);
      LeadsOn(recs[j..], recs[..j], recs[j].pos, a, recs[j].pos, width, height, false);
    } else {
      assert TurnedRecs(recs, 0) == recs;
    }
  }

  lemma {:induction false} MovingLeads(recs: seq<Rec>, a: Vec, b: Vec, width: int, height: int)
    requires width > 0 && height > 0 && Leads(recs, a, b, width, height, false)
    ensures Leads(MovingRecs(recs), a, b, width, height, false)
    decreases |recs|
  {
    if recs != [] {
      var n := |recs| - 1;
      var less := MovingRecs(recs[..n]);
      MovingLeads(recs[..n], a, recs[n].pos, width, height);
      MovingLast(recs);
      hide Congruent, MovingRecs;
      if recs[n].off == Vec(0, 0) {
        assert Plus(recs[n].pos, recs[n].off) == recs[n].pos;
        LeadsTo(less, a, recs[n].pos, b, width, height, false);
      } else {
        assert (less + [recs[n]])[..|less|] == less;
      }
    }
  }

  /** A walk that leads from a to b is at b when its offsets have been added to a. */
  lemma {:induction false} LeadsSum(recs: seq<Rec>, a: Vec, b: Vec, width: int, height: int)
    requires width > 0 && height > 0 && Leads(recs, a, b, width, height, false)
    ensures Congruent(Plus(a, OffsetSum(recs)), b, width, height)
    decreases |recs|
  {
    if recs == [] {
      assert Plus(a, Vec(0, 0)) == a;
    } else {
      hide Congruent;
      var n := |recs| - 1;
      var r, sum := recs[n], OffsetSum(recs[..n]);
      LeadsSum(recs[..n], a, r.pos, width, height);
      CongruentPlus(Plus(a, sum), r.pos, r.off, width, height);
      assert Plus(Plus(a, sum), r.off) == Plus(a, Plus(sum, r.off));
      SameTwice(Plus(a, OffsetSum(recs)), Plus(r.pos, r.off), b, width, height);
    }
  }

  lemma SameTwice(a: Vec, b: Vec, c: Vec, width: int, height: int)
    requires width > 0 && height > 0 && Congruent(a, b, width, height) && Congruent(b, c, width, height)
    ensures Congruent(a, c, width, height)
  {}

  // ----- What it shows

  lemma {:induction false} MovingUnits(recs: seq<Rec>)
    requires UnitRecs(recs)
    ensures UnitRecs(MovingRecs(recs))
    decreases |recs|
  {
    if recs != [] {
      hide IsUnit;
      MovingUnits(recs[..|recs| - 1]);
    }
  }

  lemma {:induction false} TurnedUnits(recs: seq<Rec>, k: nat)
    requires UnitRecs(recs) && k <= |recs|
    ensures UnitRecs(TurnedRecs(recs, k))
  {
    hide IsUnit;
    UnitsJoin(recs[|recs| - k..], recs[..|recs| - k]);
  }

  lemma {:induction false} TurnedShown(recs: seq<Rec>, k: nat, s: State, width: int, height: int)
    requires width > 0 && height > 0 && k <= |recs|
    ensures Shown(TurnedRecs(recs, k), s, width, height) == Shown(recs, s, width, height)
  {
    hide Weigh;
    var g, p, q := Counting(s, width, height), recs[..|recs| - k], recs[|recs| - k..];
    assert p + q == recs;
    WeighConcat(g, p, q);
    WeighConcat(g, q, p);
  }

  lemma UnitMoves(v: Vec)
    requires IsUnit(v)
    ensures v != Vec(0, 0)
  {}

  lemma {:induction false} MovingShown(recs: seq<Rec>, s: State, width: int, height: int)
    requires width > 0 && height > 0 && UnitRecs(recs)
    ensures Shown(MovingRecs(recs), s, width, height) == Shown(recs, s, width, height)
    decreases |recs|
  {
    if recs != [] {
      hide IsUnit;
      var g, n := Counting(s, width, height), |recs| - 1;
      MovingShown(recs[..n], s, width, height);
      MovingLast(recs);
      hide MovingRecs;
      if recs[n].off == Vec(0, 0) {
        if !recs[n].hidden { UnitMoves(recs[n].off); }
      } else {
        WeighConcat(g, MovingRecs(recs[..n]), [recs[n]]);
        WeighOne(g, recs[n]);
      }
    }
  }
}
