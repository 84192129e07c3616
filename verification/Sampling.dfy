/** The random map maker: distributing a number of terrain cells over the sites that can take them. */
module Sampling {
  import opened Options
  import opened Torus

  /** The terrain a site would take, if it can take any. */
  type Sites = seq<seq<Option<int>>>

  function RowSites(row: seq<Option<int>>): nat {
    if row == [] then 0 else RowSites(row[..|row| - 1]) + if row[|row| - 1].Some? then 1 else 0
  }

  function AllSites(sites: Sites): nat {
    if sites == [] then 0 else AllSites(sites[..|sites| - 1]) + RowSites(sites[|sites| - 1])
  }

  /** A draw chooses a site when rest sites are left and want of them are still to be chosen. */
  predicate Takes(drawn: nat, rest: nat, want: nat)
    requires rest > 0
  {
    drawn % rest < want
  }

  /** Chosen among the first m of total sites, when want are to be chosen. */
  function Chosen(want: nat, total: nat, draw: nat -> nat, m: nat): (n: nat)
    requires want <= total && m <= total
    ensures 0 <= want - n <= total - m && n <= m
  {
    if m == 0 then 0
    else
      var n := Chosen(want, total, draw, m - 1);
      if Takes(draw(m - 1), total - (m - 1), want - n) then n + 1 else n
  }

  lemma ChosenNext(want: nat, total: nat, draw: nat -> nat, m: nat)
    requires want <= total && m < total
    ensures var n := Chosen(want, total, draw, m);
            Chosen(want, total, draw, m + 1) == if Takes(draw(m), total - m, want - n) then n + 1 else n
  {}

  /** Sites above the last row, the only ones that can be chosen. */
  function Above(sites: Sites): nat { if sites == [] then 0 else AllSites(sites[..|sites| - 1]) }

  /** How many are to be placed: no more than there are sites. */
  function Wanted(n: int, sites: Sites): nat {
    if n <= 0 then 0 else if n > AllSites(sites) then AllSites(sites) else n
  }

  /** Looks at every site once but chooses only above the last row. */
  method RandomDistribute(number: int, sites: Sites, draw: nat -> nat) returns (n: nat)
    ensures Above(sites) <= AllSites(sites)
    ensures n == Chosen(Wanted(number, sites), AllSites(sites), draw, Above(sites))
  {
    hide Chosen, Takes, AllSites, RowSites;
    AboveBelow(sites);
    NoSites(sites);
    if number <= 0 {
      ChosenNone(AllSites(sites), draw, Above(sites));
      return 0;
    }
    var total := CountSites(sites);
    var wanted := if number > total then total else number;
    var m: nat, y := 0, 0;
    n := 0;
    ChosenZero(wanted, total, draw);
    while y < |sites| - 1
      invariant 0 <= y && (|sites| > 0 ==> y <= |sites| - 1) && (|sites| == 0 ==> y == 0)
      invariant m == AllSites(sites[..y]) && m <= total && n == Chosen(wanted, total, draw, m)
    {
      RowsGrow(sites, y);
      for x := 0 to |sites[y]|
        invariant m == AllSites(sites[..y]) + RowSites(sites[y][..x]) && m <= total &&
                  n == Chosen(wanted, total, draw, m)
      {
        RowGrows(sites[y], x);
        if sites[y][x].Some? {
          ChosenNext(wanted, total, draw, m);
          if Takes(draw(m), total - m, wanted - n) {
            n := n + 1;
          }
          m := m + 1;
        }
      }
      assert sites[y][..|sites[y]|] == sites[y];
      y := y + 1;
    }
  }

  method CountSites(sites: Sites) returns (total: nat)
    ensures total == AllSites(sites)
  {
    total := 0;
    for y := 0 to |sites|
      invariant total == AllSites(sites[..y])
    {
      assert sites[..y + 1][..y] == sites[..y];
      for x := 0 to |sites[y]|
        invariant total == AllSites(sites[..y]) + RowSites(sites[y][..x])
      {
        assert sites[y][..x + 1][..x] == sites[y][..x];
        if sites[y][x].Some? { total := total + 1; }
      }
      assert sites[y][..|sites[y]|] == sites[y];
    }
    assert sites[..|sites|] == sites;
  }

  lemma {:induction false} RowPart(row: seq<Option<int>>, x: nat)
    requires x <= |row|
    ensures RowSites(row[..x]) <= RowSites(row)
    decreases |row| - x
  {
    if x < |row| {
      RowPart(row, x + 1);
      assert row[..x + 1][..x] == row[..x];
    } else {
      assert row[..x] == row;
    }
  }

  lemma RowGrows(row: seq<Option<int>>, x: nat)
    requires x < |row|
    ensures RowSites(row[..x + 1]) == RowSites(row[..x]) + (if row[x].Some? then 1 else 0) <= RowSites(row)
  {
    assert row[..x + 1][..x] == row[..x];
    RowPart(row, x + 1);
  }

  lemma {:induction false} SitesGrow(sites: Sites, y: nat)
    requires y <= |sites|
    ensures AllSites(sites[..y]) <= AllSites(sites)
    decreases |sites| - y
  {
    if y < |sites| {
      SitesGrow(sites, y + 1);
      assert sites[..y + 1][..y] == sites[..y];
    } else {
      assert sites[..y] == sites;
    }
  }

  lemma RowsGrow(sites: Sites, y: nat)
    requires y < |sites|
    ensures AllSites(sites[..y + 1]) == AllSites(sites[..y]) + RowSites(sites[y]) <= AllSites(sites)
    ensures RowSites(sites[y][..0]) == 0
  {
    assert sites[..y + 1][..y] == sites[..y];
    SitesGrow(sites, y + 1);
  }

  lemma NoSites(sites: Sites)
    ensures AllSites(sites[..0]) == 0
  {}

  lemma AboveBelow(sites: Sites)
    ensures AllSites(sites) == Above(sites) + if sites == [] then 0 else RowSites(sites[|sites| - 1])
  {}

  lemma ChosenZero(want: nat, total: nat, draw: nat -> nat)
    requires want <= total
    ensures Chosen(want, total, draw, 0) == 0
  {}

  lemma {:induction false} ChosenNone(total: nat, draw: nat -> nat, m: nat)
    requires m <= total
    ensures Chosen(0, total, draw, m) == 0
  {
    if m > 0 { ChosenNone(total, draw, m - 1); }
  }

  /** Draws that choose a site only when all the rest are needed. */
  function Reluctant(total: nat): nat -> nat { (m: nat) => if m < total then total - m - 1 else 0 }

  lemma {:induction false} ReluctantChoice(want: nat, total: nat, m: nat)
    requires want <= total && m <= total
    ensures Chosen(want, total, Reluctant(total), m) == if want <= total - m then 0 else want - (total - m)
  {
    if m > 0 {
      hide Chosen;
      ReluctantChoice(want, total, m - 1);
      ChosenNext(want, total, Reluctant(total), m - 1);
      var r := total - (m - 1);
      ModUnique(r - 1, r, 0, r - 1);
    } else {
      ChosenZero(want, total, Reluctant(total));
    }
  }

  /** With these draws all that were wanted are placed. */
  predicate PlacesAll(sites: Sites, want: nat, draw: nat -> nat)
    requires want <= AllSites(sites)
  {
    AboveBelow(sites);
    Chosen(want, AllSites(sites), draw, Above(sites)) == want
  }

  /** All that were wanted are placed, whatever is drawn, exactly when the last row has no site. */
  lemma PlacedAll(sites: Sites, want: nat)
    requires 0 < want <= AllSites(sites)
    ensures sites != []
    ensures (forall draw :: PlacesAll(sites, want, draw)) <==> RowSites(sites[|sites| - 1]) == 0
  {
    AboveBelow(sites);
    var total, above := AllSites(sites), Above(sites);
    if RowSites(sites[|sites| - 1]) > 0 {
      ReluctantChoice(want, total, above);
      assert !PlacesAll(sites, want, Reluctant(total));
    }
  }

  // ----- Every choice of sites is as likely as any other

  /** Which of the first m sites are chosen. */
  function Picks(want: nat, total: nat, draw: nat -> nat, m: nat): (picks: seq<bool>)
    requires want <= total && m <= total
    ensures |picks| == m
  {
    if m == 0 then []
    else
      Picks(want, total, draw, m - 1) + [Takes(draw(m - 1), total - (m - 1), want - Chosen(want, total, draw, m - 1))]
  }

  function Picked(picks: seq<bool>): (n: nat)
    ensures n <= |picks|
  {
    if picks == [] then 0 else (if picks[0] then 1 else 0) + Picked(picks[1..])
  }

  lemma {:induction false} PickedNext(picks: seq<bool>, last: bool)
    ensures Picked(picks + [last]) == Picked(picks) + if last then 1 else 0
  {
    if picks == [] {
      assert [last][1..] == [];
    } else {
      PickedNext(picks[1..], last);
      assert (picks + [last])[1..] == picks[1..] + [last];
    }
  }

  lemma {:induction false} PicksCount(want: nat, total: nat, draw: nat -> nat, m: nat)
    requires want <= total && m <= total
    ensures Picked(Picks(want, total, draw, m)) == Chosen(want, total, draw, m)
  {
    if m > 0 {
      PicksCount(want, total, draw, m - 1);
      PickedNext(Picks(want, total, draw, m - 1),
                 Takes(draw(m - 1), total - (m - 1), want - Chosen(want, total, draw, m - 1)));
    }
  }

  /** How many of the first r numbers that may be drawn take the site, or leave it. */
  function Favours(want: nat, rest: nat, take: bool, r: nat): nat
    requires r <= rest
  {
    if r == 0 then 0 else Favours(want, rest, take, r - 1) + if Takes(r - 1, rest, want) == take then 1 else 0
  }

  /** The number of ways to draw, from as many numbers at each site as there are sites left, that make these picks. */
  function Draws(want: nat, rest: nat, picks: seq<bool>): nat
    requires |picks| <= rest
  {
    if picks == [] then 1
    else
      Favours(want, rest, picks[0], rest) *
      Draws(if picks[0] && want > 0 then want - 1 else want, rest - 1, picks[1..])
  }

  lemma {:induction false} FavoursAre(want: nat, rest: nat, take: bool, r: nat)
    requires r <= rest
    ensures var taken := if r <= want then r else want;
            Favours(want, rest, take, r) == if take then taken else r - taken
  {
    if r > 0 {
      FavoursAre(want, rest, take, r - 1);
      ModUnique(r - 1, rest, 0, r - 1);
    }
  }

  /** n (n - 1) ... down over k factors. */
  function Falling(n: int, k: nat): int
    decreases k
  {
    if k == 0 then 1 else n * Falling(n - 1, k - 1)
  }

  lemma Regroup(a: int, b: int, c: int)
    ensures a * (b * c) == (a * b) * c && a * (b * c) == b * (a * c)
  {}

  /** How many ways there are depends only on how many sites are picked. */
  lemma {:induction false} EqualChance(want: nat, rest: nat, picks: seq<bool>)
    requires want <= rest && |picks| <= rest
    ensures Draws(want, rest, picks) ==
            Falling(want, Picked(picks)) * Falling(rest - want, |picks| - Picked(picks))
    decreases |picks|
  {
    if picks != [] {
      FavoursAre(want, rest, picks[0], rest);
      var j, k := Picked(picks), |picks| - Picked(picks);
      hide Favours;
      if picks[0] && want > 0 {
        EqualChance(want - 1, rest - 1, picks[1..]);
        Regroup(want, Falling(want - 1, j - 1), Falling(rest - want, k));
      } else if !picks[0] && want < rest {
        EqualChance(want, rest - 1, picks[1..]);
        Regroup(rest - want, Falling(want, j), Falling(rest - want - 1, k - 1));
      }
    }
  }
}
