/** The client's kill and death counts: a table of limited size behind a small cache of recent slots. */
module RankTable {

  datatype Score = Score(nick: string, kills: int, deaths: int, timestamp: int)

  type Table = s: seq<Score> | |s| > 0 witness [Score("", 0, 0, 0)]

  /** No two used slots carry the same nick; unused ones have none. */
  predicate Distinct(s: seq<Score>) { forall i, j :: 0 <= i < j < |s| && s[i].nick == s[j].nick ==> s[i].nick == "" }

  /** The first slot with this nick, or the number of slots. */
  function Find(s: seq<Score>, nick: string): (i: nat)
    ensures i <= |s| && (i < |s| ==> s[i].nick == nick)
    ensures forall j :: 0 <= j < i ==> s[j].nick != nick
  {
    if s == [] || s[0].nick == nick then 0 else 1 + Find(s[1..], nick)
  }

  /** The first slot not used longest. */
  function Oldest(s: Table): (i: nat)
    ensures i < |s|
    ensures forall j :: 0 <= j < |s| ==> s[i].timestamp <= s[j].timestamp
    ensures forall j :: 0 <= j < i ==> s[i].timestamp < s[j].timestamp
  {
    if |s| == 1 then 0
    else
      var i, n := Oldest(s[..|s| - 1]), |s| - 1;
      if s[n].timestamp < s[i].timestamp then n else i
  }

  /** The slot a nick has or will be given. */
  function Slot(s: Table, nick: string): (i: nat)
    ensures i < |s|
  {
    if Find(s, nick) < |s| then Find(s, nick) else Oldest(s)
  }

  /** The table once the nick has a slot. */
  function Claimed(s: Table, nick: string, now: int): (t: Table)
    ensures |t| == |s|
  {
    if Find(s, nick) < |s| then s else s[Oldest(s) := Score(nick, 0, 0, now)]
  }

  lemma FindUnique(s: seq<Score>, nick: string, i: nat)
    requires Distinct(s) && nick != "" && i < |s| && s[i].nick == nick
    ensures Find(s, nick) == i
  {
    assert Find(s, nick) <= i;
  }

  /** With distinct nicks a slot that carries the nick is the one a search of the table finds. */
  lemma CacheAgrees(s: Table, nick: string, i: nat)
    requires Distinct(s) && nick != "" && i < |s| && s[i].nick == nick
    ensures Slot(s, nick) == i
  {
    FindUnique(s, nick, i);
  }

  lemma FilledDistinct(read: seq<Score>)
    requires |read| <= MAX_SCORES && Distinct(read)
    ensures Distinct(Filled(read))
  {}

  lemma ClaimedDistinct(s: Table, nick: string, now: int)
    requires Distinct(s) && nick != ""
    ensures Distinct(Claimed(s, nick, now)) && Claimed(s, nick, now)[Slot(s, nick)].nick == nick
  {}

  const CACHE := 10
  const MAX_SCORES := 500

  /** The table after reading some scores from a file. */
  function Filled(read: seq<Score>): (s: Table)
    requires |read| <= MAX_SCORES
    ensures |s| == MAX_SCORES
  {
    read + seq(MAX_SCORES - |read|, _ => Score("", 0, 0, 0))
  }

  /** timesort before sorting: the slots read from the file are never entered. */
  function Unsorted(read: seq<Score>): (t: seq<nat>)
    requires |read| <= MAX_SCORES
    ensures |t| == MAX_SCORES
  {
    seq(MAX_SCORES, i requires 0 <= i < MAX_SCORES => if i < |read| then 0 else i)
  }

  ghost predicate Slots(t: seq<nat>, s: seq<Score>) { forall i :: 0 <= i < |t| ==> t[i] < |s| }

  /** The first n slots in order of time, the newest first, and none of the others newer. */
  ghost predicate NewestFirst(t: seq<nat>, s: seq<Score>, n: int) {
    Slots(t, s) && forall i, j :: 0 <= i < n && i < j < |t| ==> s[t[i]].timestamp >= s[t[j]].timestamp
  }

  /** Slot i is being chosen, and is the newest of those up to j. */
  ghost predicate Choosing(t: seq<nat>, s: seq<Score>, i: nat, j: nat) {
    NewestFirst(t, s, i) && i < j <= |t| && forall b :: i < b < j ==> s[t[i]].timestamp >= s[t[b]].timestamp
  }

  lemma ChoosingStart(t: seq<nat>, s: seq<Score>, i: nat)
    requires NewestFirst(t, s, i) && i < |t|
    ensures Choosing(t, s, i, i + 1)
  {}

  lemma ChoosingEnd(t: seq<nat>, s: seq<Score>, i: nat)
    requires Choosing(t, s, i, |t|)
    ensures NewestFirst(t, s, i + 1)
  {}

  function Exchanged(t: seq<nat>, i: nat, j: nat): (u: seq<nat>)
    requires i < |t| && j < |t|
    ensures |u| == |t|
  {
    t[i := t[j]][j := t[i]]
  }

  lemma ChoosingStep(t: seq<nat>, s: seq<Score>, i: nat, j: nat)
    requires Choosing(t, s, i, j) && j < |t| && Slots(t, s)
    ensures Slots(Exchanged(t, i, j), s)
    ensures if s[t[i]].timestamp < s[t[j]].timestamp then Choosing(Exchanged(t, i, j), s, i, j + 1)
            else Choosing(t, s, i, j + 1)
  {
    if s[t[i]].timestamp < s[t[j]].timestamp {
      var u := Exchanged(t, i, j);
      forall a, b | 0 <= a < i && a < b < |u| ensures s[u[a]].timestamp >= s[u[b]].timestamp {
        assert u[a] == t[a] && u[b] == t[if b == i then j else if b == j then i else b];
      }
    }
  }

  lemma ExchangedSame(t: seq<nat>, i: nat, j: nat)
    requires i < |t| && j < |t|
    ensures multiset(Exchanged(t, i, j)) == multiset(t)
  {}

  lemma NoneChosen(t: seq<nat>, s: seq<Score>)
    requires Slots(t, s)
    ensures NewestFirst(t, s, 0)
  {}

  /** Sorting does not enter slots that were left out. */
  lemma NoneEntered(order: seq<nat>, start: seq<nat>)
    requires multiset(order) == multiset(start) && forall i :: 0 <= i < |start| ==> start[i] == 0
    ensures forall i :: 0 <= i < |order| ==> order[i] == 0
  {
    forall i | 0 <= i < |order| ensures order[i] == 0 {
      assert order[i] in multiset(order);
      assert order[i] in start;
    }
  }

  /** What the cache starts with: the newest slots of those entered for sorting. */
  ghost predicate Newest(recent: seq<nat>, read: seq<Score>)
    requires |read| <= MAX_SCORES
  {
    exists order: seq<nat> {:trigger multiset(order)} ::
      |order| == MAX_SCORES && multiset(order) == multiset(Unsorted(read)) &&
      NewestFirst(order, Filled(read), MAX_SCORES) && recent == order[..CACHE]
  }

  /** A complete file leaves no other slot than the first to choose from. */
  lemma NewestOfFile(recent: seq<nat>, read: seq<Score>)
    requires |read| == MAX_SCORES && Newest(recent, read)
    ensures |recent| == CACHE && forall i :: 0 <= i < CACHE ==> recent[i] == 0
  {
    var order: seq<nat> :|
      |order| == MAX_SCORES && multiset(order) == multiset(Unsorted(read)) &&
      NewestFirst(order, Filled(read), MAX_SCORES) && recent == order[..CACHE];
    NoneEntered(order, Unsorted(read));
  }

  class ClientRank {
    const scores: array<Score>
    const recent: array<nat>
    var oldestCache: nat

    ghost predicate Valid()
      reads this, scores, recent
    {
      scores.Length == MAX_SCORES && recent.Length == CACHE && oldestCache in {0, 5} && Distinct(scores[..]) &&
      forall i :: 0 <= i < CACHE ==> recent[i] < scores.Length
    }

    /** Init_saved_scores, after reading scores if there is a file for them. */
    constructor (read: seq<Score>, scoring: bool)
      requires |read| <= MAX_SCORES && Distinct(read) && (!scoring ==> read == [])
      ensures Valid() && fresh(scores) && fresh(recent) && scores[..] == Filled(read)
      ensures if scoring then oldestCache == 5 && Newest(recent[..], read)
              else oldestCache == 0 && forall i :: 0 <= i < CACHE ==> recent[i] == 0
    {
      hide Newest, Filled;
      var table := Filled(read);
      scores := new Score[MAX_SCORES](i requires 0 <= i < MAX_SCORES => table[i]);
      recent := new nat[CACHE](_ => 0);
      oldestCache := 0;
      new;
      assert scores[..] == table;
      FilledDistinct(read);
      if scoring { TimeSort(read); }
    }

    /** Time_Sort: caches the newest slots. */
    method TimeSort(read: seq<Score>)
      requires |read| <= MAX_SCORES && scores[..] == Filled(read) && recent.Length == CACHE
      modifies this`oldestCache, recent
      ensures oldestCache == 5 && Newest(recent[..], read) && forall i :: 0 <= i < CACHE ==> recent[i] < MAX_SCORES
    {
      hide Filled;
      var start := Unsorted(read);
      var timesort := new nat[MAX_SCORES](i requires 0 <= i < MAX_SCORES => start[i]);
      assert timesort[..] == start;
      SortSlots(timesort);
      for i := 0 to CACHE
        modifies recent
        invariant forall j :: 0 <= j < i ==> recent[j] == timesort[j]
      {
        recent[i] := timesort[i];
      }
      assert recent[..] == timesort[..][..CACHE];
      oldestCache := 5;
    }

    method SortSlots(timesort: array<nat>)
      requires Slots(timesort[..], scores[..])
      modifies timesort
      ensures NewestFirst(timesort[..], scores[..], timesort.Length) &&
              multiset(timesort[..]) == multiset(old(timesort[..]))
    {
      hide NewestFirst, Choosing;
      ghost var s, t0 := scores[..], timesort[..];
      NoneChosen(t0, s);
      for i := 0 to timesort.Length
        invariant Slots(timesort[..], s) && NewestFirst(timesort[..], s, i) && multiset(timesort[..]) == multiset(t0)
      {
        ChooseSlot(timesort, i);
      }
    }

    /** Brings the newest of the slots from i on to place i. */
    method ChooseSlot(timesort: array<nat>, i: nat)
      requires Slots(timesort[..], scores[..]) && i < timesort.Length && NewestFirst(timesort[..], scores[..], i)
      modifies timesort
      ensures Slots(timesort[..], scores[..]) && NewestFirst(timesort[..], scores[..], i + 1)
      ensures multiset(timesort[..]) == multiset(old(timesort[..]))
    {
      hide NewestFirst, Choosing, Exchanged;
      ghost var s, t0 := scores[..], timesort[..];
      ChoosingStart(timesort[..], s, i);
      for j := i + 1 to timesort.Length
        invariant Slots(timesort[..], s) && Choosing(timesort[..], s, i, j) && multiset(timesort[..]) == multiset(t0)
      {
        ghost var t := timesort[..];
        ChoosingStep(t, s, i, j);
        if scores[timesort[i]].timestamp < scores[timesort[j]].timestamp {
          ExchangeIn(timesort, i, j);
          ExchangedSame(t, i, j);
        }
      }
      ChoosingEnd(timesort[..], s, i);
    }

    method ExchangeIn(a: array<nat>, i: nat, j: nat)
      requires i < j < a.Length
      modifies a
      ensures a[..] == Exchanged(old(a[..]), i, j)
    {
      a[i], a[j] := a[j], a[i];
    }

    /** The slot of a nick, found or claimed. */
    method GetSavedScore(nick: string, now: int) returns (i: nat)
      requires scores.Length > 0
      modifies scores
      ensures i == Slot(old(scores[..]), nick) && scores[..] == Claimed(old(scores[..]), nick, now)
    {
      var oldest := 0;
      ghost var s := scores[..];
      i := 0;
      while i < scores.Length
        invariant 0 <= i <= |s| == scores.Length && scores[..] == s
        invariant oldest == if i == 0 then 0 else Oldest(s[..i])
        invariant forall j :: 0 <= j < i ==> s[j].nick != nick
        modifies {}
      {
        if nick == scores[i].nick {
          return;
        }
        assert s[..i + 1][..i] == s[..i];
        if scores[i].timestamp < scores[oldest].timestamp {
          oldest := i;
        }
        i := i + 1;
      }
      assert s[..|s|] == s;
      scores[oldest] := Score(nick, 0, 0, now);
      i := oldest;
    }

    /** The cache entry through which the nick's slot is reached. A miss replaces one entry, and every later miss the
        first. */
    method FindPlayer(nick: string, now: int) returns (i: nat)
      requires Valid() && nick != ""
      modifies this`oldestCache, scores, recent
      ensures Valid() && i < CACHE && recent[i] == Slot(old(scores[..]), nick)
      ensures scores[..] == Claimed(old(scores[..]), nick, now)
      ensures if exists j :: 0 <= j < CACHE && old(scores[recent[j]].nick) == nick
              then recent[..] == old(recent[..]) && oldestCache == old(oldestCache)
              else recent[..] == old(recent[..])[i := recent[i]] && i == old(oldestCache) && oldestCache == 0
    {
      i := 0;
      while i < 10
        invariant 0 <= i <= 10 && forall j :: 0 <= j < i ==> scores[recent[j]].nick != nick
        modifies {}
      {
        if nick == scores[recent[i]].nick {
          CacheAgrees(scores[..], nick, recent[i]);
          return;
        }
        i := i + 1;
      }
      ClaimedDistinct(scores[..], nick, now);
      i := GetSavedScore(nick, now);
      recent[oldestCache] := i;
      i := oldestCache;
      oldestCache := (oldestCache + 1) / 10;
    }

    method AddRankKill(nick: string, now: int, later: int)
      requires Valid() && nick != ""
      modifies this`oldestCache, scores, recent
      ensures Valid() && scores[..] == Killed(old(scores[..]), nick, now, later)
    {
      ClaimedDistinct(scores[..], nick, now);
      var i := FindPlayer(nick, now);
      var score := scores[recent[i]];
      scores[recent[i]] := score.(kills := score.kills + 1, timestamp := later);
    }

    method AddRankDeath(nick: string, now: int, later: int)
      requires Valid() && nick != ""
      modifies this`oldestCache, scores, recent
      ensures Valid() && scores[..] == Died(old(scores[..]), nick, now, later)
    {
      ClaimedDistinct(scores[..], nick, now);
      var i := FindPlayer(nick, now);
      var score := scores[recent[i]];
      scores[recent[i]] := score.(deaths := score.deaths + 1, timestamp := later);
    }

    method GetKills(nick: string, now: int) returns (kills: int)
      requires Valid() && nick != ""
      modifies this`oldestCache, scores, recent
      ensures Valid() && scores[..] == Claimed(old(scores[..]), nick, now) && kills == Counts(old(scores[..]), nick).0
    {
      var i := FindPlayer(nick, now);
      kills := scores[recent[i]].kills;
    }
  }

  // ----- The table without the cache

  function Killed(s: Table, nick: string, now: int, later: int): (t: Table)
    ensures |t| == |s|
  {
    var t, i := Claimed(s, nick, now), Slot(s, nick);
    t[i := t[i].(kills := t[i].kills + 1, timestamp := later)]
  }

  function Died(s: Table, nick: string, now: int, later: int): (t: Table)
    ensures |t| == |s|
  {
    var t, i := Claimed(s, nick, now), Slot(s, nick);
    t[i := t[i].(deaths := t[i].deaths + 1, timestamp := later)]
  }

  /** Kills and deaths of a nick, none for a nick without slot. */
  function Counts(s: seq<Score>, nick: string): (int, int) {
    var i := Find(s, nick);
    if i < |s| then (s[i].kills, s[i].deaths) else (0, 0)
  }

  /** The nick whose slot is given away when this one needs a slot; none when it has one. */
  predicate Evicts(s: Table, nick: string, loser: string) {
    Find(s, nick) == |s| && s[Oldest(s)].nick == loser
  }

  /** Replacing one slot by a score of another nick leaves a nick's count alone, unless the slot was its own. */
  lemma CountsElsewhere(s: Table, t: Table, k: nat, nick: string)
    requires Distinct(s) && Distinct(t) && |t| == |s| && k < |s| && nick != "" && t[k].nick != nick
    requires forall i :: 0 <= i < |s| && i != k ==> t[i] == s[i]
    ensures Counts(t, nick) == if s[k].nick == nick then (0, 0) else Counts(s, nick)
  {
    var i := Find(t, nick);
    if i < |t| {
      assert s[i].nick == nick;
      FindUnique(s, nick, i);
      if s[k].nick == nick { FindUnique(s, nick, k); }
    } else {
      assert forall j :: 0 <= j < |s| && j != k ==> s[j].nick != nick by {
        forall j | 0 <= j < |s| && j != k ensures s[j].nick != nick { assert t[j] == s[j]; }
      }
      if s[k].nick == nick { FindUnique(s, nick, k); }
    }
  }

  /** A kill counts one more for its nick, forgets the nick evicted for it, and no other count changes. */
  lemma KillCounts(s: Table, nick: string, now: int, later: int, other: string)
    requires Distinct(s) && nick != "" && other != ""
    ensures Distinct(Killed(s, nick, now, later))
    ensures Counts(Killed(s, nick, now, later), nick) == (Counts(s, nick).0 + 1, Counts(s, nick).1)
    ensures other != nick ==>
              Counts(Killed(s, nick, now, later), other) == if Evicts(s, nick, other) then (0, 0) else Counts(s, other)
  {
    var t, k := Killed(s, nick, now, later), Slot(s, nick);
    ClaimedDistinct(s, nick, now);
    FindUnique(t, nick, k);
    if other != nick { CountsElsewhere(s, t, k, other); }
  }

  /** Likewise a death. */
  lemma DeathCounts(s: Table, nick: string, now: int, later: int, other: string)
    requires Distinct(s) && nick != "" && other != ""
    ensures Distinct(Died(s, nick, now, later))
    ensures Counts(Died(s, nick, now, later), nick) == (Counts(s, nick).0, Counts(s, nick).1 + 1)
    ensures other != nick ==>
              Counts(Died(s, nick, now, later), other) == if Evicts(s, nick, other) then (0, 0) else Counts(s, other)
  {
    var t, k := Died(s, nick, now, later), Slot(s, nick);
    ClaimedDistinct(s, nick, now);
    FindUnique(t, nick, k);
    if other != nick { CountsElsewhere(s, t, k, other); }
  }

  // ----- Who is evicted

  /** A kill or a death counted for a nick. */
  datatype Use = Use(nick: string, now: int, later: int, kill: bool)

  function Used(s: Table, u: Use): (t: Table)
    ensures |t| == |s|
  {
    if u.kill then Killed(s, u.nick, u.now, u.later) else Died(s, u.nick, u.now, u.later)
  }

  function AfterAll(s: Table, uses: seq<Use>): (t: Table)
    ensures |t| == |s|
  {
    if uses == [] then s else Used(AfterAll(s, uses[..|uses| - 1]), uses[|uses| - 1])
  }

  /** When the nick was last used: in the run, or else as the table said before it. */
  function LastUse(s: Table, uses: seq<Use>, nick: string): int {
    if uses == [] then
      var i := Find(s, nick);
      if i < |s| then s[i].timestamp else 0
    else
      var u := uses[|uses| - 1];
      if u.nick == nick then u.later else LastUse(s, uses[..|uses| - 1], nick)
  }

  lemma UsedSlots(s: Table, u: Use)
    requires Distinct(s) && u.nick != ""
    ensures Distinct(Used(s, u))
    ensures var t, k := Used(s, u), Slot(s, u.nick);
            t[k].nick == u.nick && t[k].timestamp == u.later && forall i :: 0 <= i < |s| && i != k ==> t[i] == s[i]
  {
    ClaimedDistinct(s, u.nick, u.now);
  }

  /** Every slot in use is stamped with the last use of its nick. */
  lemma {:induction false} Stamped(s: Table, uses: seq<Use>, i: nat)
    requires Distinct(s) && i < |s| && forall j :: 0 <= j < |uses| ==> uses[j].nick != ""
    ensures Distinct(AfterAll(s, uses))
    ensures var t := AfterAll(s, uses); t[i].nick != "" ==> t[i].timestamp == LastUse(s, uses, t[i].nick)
    decreases |uses|
  {
    hide Distinct, Used;
    if uses == [] {
      if s[i].nick != "" { FindUnique(s, s[i].nick, i); }
    } else {
      var n := |uses| - 1;
      var t, u := AfterAll(s, uses[..n]), uses[n];
      Stamped(s, uses[..n], i);
      UsedSlots(t, u);
      var k := Slot(t, u.nick);
      if i != k {
        if t[i].nick == u.nick { FindUnique(Used(t, u), u.nick, k); FindUnique(Used(t, u), u.nick, i); }
      }
    }
  }

  /** Of the nicks in the table, the one evicted after any run of kills and deaths is the one used longest ago. */
  lemma {:induction false} LeastRecentLeaves(s: Table, uses: seq<Use>, nick: string, loser: string, other: string)
    requires Distinct(s) && forall j :: 0 <= j < |uses| ==> uses[j].nick != ""
    requires var t := AfterAll(s, uses);
             Evicts(t, nick, loser) && loser != "" && other != "" && Find(t, other) < |t|
    ensures LastUse(s, uses, loser) <= LastUse(s, uses, other)
  {
    hide AfterAll, LastUse, Distinct;
    var t := AfterAll(s, uses);
    Stamped(s, uses, Oldest(t));
    Stamped(s, uses, Find(t, other));
  }
}
