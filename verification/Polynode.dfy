/** The linked outline objects and their destructive traversal. */
module Polynodes {
  import opened Torus
  import opened Trace
  import opened ClosestPair
  import opened Tour

  /** A link as the objects hold it: the outline it leads to, the corner there, the offset. */
  datatype Target = Target(node: Polynode, index: nat, off: Vec)

  /** The best link found so far to an outline not yet attached. */
  datatype Best = Best(d: int, start: nat, index: nat, off: Vec, from: Polynode?)

  /** The source's 1e98: no link found yet. */
  const UNLINKED: int :=
    100000000000000000000000000000000000000000000000000000000000000000000000000000000000000000000000000

  function FirstIndex(s: seq<nat>, c: nat): (j: nat)
    requires c in s
    ensures j < |s| && s[j] == c && c !in s[..j]
  {
    if s[0] == c then 0 else 1 + FirstIndex(s[1..], c)
  }

  lemma {:induction false} FirstIndexLeast(s: seq<nat>, c: nat, a: nat)
    requires a < |s| && s[a] == c
    ensures c in s && FirstIndex(s, c) <= a
  {
    if s[0] != c { FirstIndexLeast(s[1..], c, a - 1); }
  }

  ghost predicate Distinct(att: seq<Polynode>) {
    forall a, b :: 0 <= a < b < |att| ==> att[a] != att[b]
  }

  /** The two parallel lists of an outline hold exactly the given links. */
  ghost predicate Listed(starts: seq<nat>, targets: seq<Target>, att: seq<Polynode>, links: seq<TreeLink>) {
    |starts| == |links| && |targets| == |links| &&
    forall j :: 0 <= j < |links| ==>
      links[j].child < |att| && starts[j] == links[j].start &&
      targets[j] == Target(att[links[j].child], links[j].index, links[j].off)
  }

  ghost predicate Holds(n: Polynode, att: seq<Polynode>, links: seq<TreeLink>)
    reads n
  {
    Listed(n.linkstarts, n.linktargets, att, links)
  }

  lemma ListedRemoved(starts: seq<nat>, targets: seq<Target>, att: seq<Polynode>, links: seq<TreeLink>, j: nat)
    requires Listed(starts, targets, att, links) && j < |links|
    ensures |starts| == |targets| == |links|
    ensures Listed(starts[..j] + starts[j + 1..], targets[..j] + targets[j + 1..], att, links[..j] + links[j + 1..])
  {}

  ghost predicate Emptied(n: Polynode)
    reads n
  {
    n.linkstarts == [] && n.linktargets == []
  }

  /** Outline k hangs at or below outline i. */
  ghost predicate Under(slot: seq<(nat, nat)>, i: nat, k: nat)
    requires k < |slot|
  {
    k == i || (i < k && slot[k].0 < k && Under(slot, i, slot[k].0))
  }

  ghost function Subtree(att: seq<Polynode>, slot: seq<(nat, nat)>, i: nat): set<Polynode>
    requires |att| == |slot|
  {
    set k: nat | k < |att| && Under(slot, i, k) :: att[k]
  }

  lemma {:induction false} UnderTrans(slot: seq<(nat, nat)>, i: nat, c: nat, k: nat)
    requires i < c < |slot| && k < |slot| && slot[c].0 == i && Under(slot, c, k)
    ensures Under(slot, i, k)
    decreases k
  {
    if k != c { UnderTrans(slot, i, c, slot[k].0); }
  }

  lemma {:induction false} Siblings(slot: seq<(nat, nat)>, i: nat, c: nat, c': nat, k: nat)
    requires i < c < |slot| && i < c' < |slot| && c != c' && k < |slot| && slot[c].0 == i && slot[c'].0 == i
    requires Under(slot, c, k)
    ensures !Under(slot, c', k)
    decreases k
  {
    if k != c && slot[k].0 < k { Siblings(slot, i, c, c', slot[k].0); }
  }

  lemma OutsideSubtree(att: seq<Polynode>, slot: seq<(nat, nat)>, c: nat, k: nat)
    requires |att| == |slot| && k < |att| && Distinct(att) && !Under(slot, c, k)
    ensures att[k] !in Subtree(att, slot, c)
  {
    hide Under;
    forall j: nat | j < |att| && Under(slot, c, j) ensures att[j] != att[k] {
      assert j != k;
      if j < k { assert att[j] != att[k]; } else { assert att[k] != att[j]; }
    }
  }

  lemma SelfInSubtree(att: seq<Polynode>, slot: seq<(nat, nat)>, i: nat)
    requires |att| == |slot| && i < |att|
    ensures att[i] in Subtree(att, slot, i)
  {
    assert Under(slot, i, i);
  }

  /** The child of i through which k hangs below i. */
  lemma {:induction false} BranchOf(slot: seq<(nat, nat)>, f: Forest, i: nat, k: nat) returns (c: nat)
    requires IsTree(f, slot) && i < k < |f| && Under(slot, i, k)
    ensures i < c < |f| && slot[c].0 == i && Under(slot, c, k)
    ensures slot[c].1 < |f[i].links| && f[i].links[slot[c].1].child == c
  {
    if slot[k].0 == i { c := k; } else { c := BranchOf(slot, f, i, slot[k].0); }
  }

  lemma SubtreeWithin(att: seq<Polynode>, slot: seq<(nat, nat)>, i: nat, c: nat)
    requires |att| == |slot| && i < c < |slot| && slot[c].0 == i
    ensures Subtree(att, slot, c) <= Subtree(att, slot, i)
  {
    forall k: nat | k < |att| && Under(slot, c, k) ensures Under(slot, i, k) { UnderTrans(slot, i, c, k); }
  }

  // ---- which links are left while the corners are visited ----

  predicate Alive(links: seq<TreeLink>, seen: set<nat>, c: nat, jj: nat, j: nat)
    requires j < |links|
  {
    links[j].start !in seen && !(links[j].start == c && j < jj)
  }

  /** The links among the first n that have not been followed: corners in seen are done, corner c up to link jj. */
  ghost function Rest(links: seq<TreeLink>, seen: set<nat>, c: nat, jj: nat, n: nat): seq<TreeLink>
    requires n <= |links|
  {
    if n == 0 then []
    else Rest(links, seen, c, jj, n - 1) + if Alive(links, seen, c, jj, n - 1) then [links[n - 1]] else []
  }

  lemma {:induction false} RestFrom(links: seq<TreeLink>, seen: set<nat>, c: nat, n: nat)
    requires n <= |links| && c !in seen
    ensures Rest(links, seen, c, |links|, n) == Rest(links, seen + {c}, c, 0, n)
  {
    if n > 0 { RestFrom(links, seen, c, n - 1); }
  }

  lemma {:induction false} RestOther(links: seq<TreeLink>, seen: set<nat>, c: nat, c': nat, n: nat)
    requires n <= |links|
    ensures Rest(links, seen, c, 0, n) == Rest(links, seen, c', 0, n)
  {
    if n > 0 { RestOther(links, seen, c, c', n - 1); }
  }

  lemma {:induction false} RestStart(links: seq<TreeLink>, c: nat, n: nat)
    requires n <= |links|
    ensures Rest(links, {}, c, 0, n) == links[..n]
  {
    if n > 0 {
      RestStart(links, c, n - 1);
      assert links[..n] == links[..n - 1] + [links[n - 1]];
    }
  }

  lemma {:induction false} RestEnd(links: seq<TreeLink>, seen: set<nat>, c: nat, jj: nat, n: nat)
    requires n <= |links| && forall j :: 0 <= j < |links| ==> links[j].start in seen
    ensures Rest(links, seen, c, jj, n) == []
  {
    if n > 0 { RestEnd(links, seen, c, jj, n - 1); }
  }

  /** None of the links from jj to q leaves from corner c. */
  predicate Skips(links: seq<TreeLink>, c: nat, jj: nat, q: nat)
    requires q <= |links|
  {
    forall j :: jj <= j < q ==> links[j].start != c
  }

  lemma {:induction false} RestLacks(links: seq<TreeLink>, seen: set<nat>, c: nat, jj: nat, n: nat)
    requires n <= |links| && Skips(links, c, jj, n)
    ensures forall t :: 0 <= t < |Rest(links, seen, c, jj, n)| ==> Rest(links, seen, c, jj, n)[t].start != c
  {
    if n > 0 { RestLacks(links, seen, c, jj, n - 1); }
  }

  lemma {:induction false} RestSkips(links: seq<TreeLink>, seen: set<nat>, c: nat, jj: nat, q: nat, n: nat)
    requires jj <= q <= |links| && n <= |links| && Skips(links, c, jj, q)
    ensures Rest(links, seen, c, jj, n) == Rest(links, seen, c, q, n)
  {
    if n > 0 { RestSkips(links, seen, c, jj, q, n - 1); }
  }

  /** The next link of corner c sits in front of all others of that corner, and following it removes just it. */
  lemma WithoutOne(s: seq<TreeLink>, a: nat, tail: seq<TreeLink>)
    requires a < |s|
    ensures (s + tail)[..a] + (s + tail)[a + 1..] == s[..a] + s[a + 1..] + tail
    ensures forall t :: 0 <= t <= a ==> (s + tail)[t] == s[t]
  {}

  lemma {:induction false} RestNext(links: seq<TreeLink>, seen: set<nat>, c: nat, q: nat, n: nat)
    requires q < n <= |links| && c !in seen && links[q].start == c
    ensures var r, a := Rest(links, seen, c, q, n), |Rest(links, seen, c, q, q)|;
            a < |r| && r[a] == links[q] && (forall t :: 0 <= t < a ==> r[t].start != c) &&
            Rest(links, seen, c, q + 1, n) == r[..a] + r[a + 1..]
  {
    var a := |Rest(links, seen, c, q, q)|;
    if n == q + 1 {
      RestLacks(links, seen, c, q, q);
      RestBefore(links, seen, c, q, q);
      assert Rest(links, seen, c, q, n) == Rest(links, seen, c, q, q) + [links[q]];
    } else {
      RestNext(links, seen, c, q, n - 1);
      var tail := if Alive(links, seen, c, q, n - 1) then [links[n - 1]] else [];
      WithoutOne(Rest(links, seen, c, q, n - 1), a, tail);
    }
  }

  /** The first entry for corner c is the next link to follow. */
  lemma FirstHeld(links: seq<TreeLink>, seen: set<nat>, c: nat, q: nat, starts: seq<nat>, j: nat)
    requires q <= |links| && c !in seen && (q < |links| ==> links[q].start == c)
    requires var r := Rest(links, seen, c, q, |links|);
             |starts| == |r| && forall t :: 0 <= t < |r| ==> starts[t] == r[t].start
    requires c in starts && j == FirstIndex(starts, c)
    ensures q < |links| && j < |Rest(links, seen, c, q, |links|)|
    ensures var r := Rest(links, seen, c, q, |links|);
            r[j] == links[q] && Rest(links, seen, c, q + 1, |links|) == r[..j] + r[j + 1..]
  {
    hide Rest;
    var r := Rest(links, seen, c, q, |links|);
    assert r[j].start == c;
    if q == |links| {
      RestLacks(links, seen, c, q, |links|);
      assert false;
    }
    RestNext(links, seen, c, q, |links|);
    var a := |Rest(links, seen, c, q, q)|;
    FirstIndexLeast(starts, c, a);
  }

  lemma {:induction false} RestBefore(links: seq<TreeLink>, seen: set<nat>, c: nat, q: nat, n: nat)
    requires n <= q < |links|
    ensures Rest(links, seen, c, q, n) == Rest(links, seen, c, q + 1, n)
  {
    if n > 0 { RestBefore(links, seen, c, q, n - 1); }
  }

  lemma {:induction false} LinksAtSkips(f: Forest, i: nat, at: Vec, c: nat, jj: nat, q: nat)
    requires WellFormed(f) && i < |f| && jj <= q <= |f[i].links| && Skips(f[i].links, c, jj, q)
    ensures LinksAt(f, i, at, c, q) == LinksAt(f, i, at, c, jj)
    decreases q
  {
    if jj < q {
      LinksAtSkips(f, i, at, c, jj, q - 1);
      assert LinkOk(f, i, f[i].links[q - 1]);
    }
  }

  lemma {:induction false} NextLink(links: seq<TreeLink>, c: nat, jj: nat) returns (q: nat)
    requires jj <= |links|
    ensures jj <= q <= |links| && Skips(links, c, jj, q) && (q < |links| ==> links[q].start == c)
    decreases |links| - jj
  {
    if jj == |links| || links[jj].start == c { q := jj; } else { q := NextLink(links, c, jj + 1); }
  }

  /** Number of edges from corner start on to corner c. */
  function Ahead(len: nat, start: nat, c: nat): int {
    if c >= start then c - start else c - start + len
  }

  /** The corners among the first n met when walking round from start. */
  ghost function SeenCorners(len: nat, start: nat, n: nat): set<nat>
    requires start < len
  {
    set c: nat | c < len && Ahead(len, start, c) < n
  }

  lemma CornerSimple(poly: seq<Edge>, start: nat, n: nat)
    requires start < |poly| && n <= |poly|
    ensures Corner(poly, start, n) == if start + n < |poly| then start + n else start + n - |poly|
  {
    var turns := if start + n < |poly| then 0 else 1;
    ModUnique(start + n, |poly|, turns, start + n - turns * |poly|);
  }

  /** Corner n of the round is new, and the round ends exactly when it is back at start. */
  lemma RoundStep(poly: seq<Edge>, start: nat, n: nat)
    requires start < |poly| && n < |poly|
    ensures var c := Corner(poly, start, n);
            c < |poly| && c !in SeenCorners(|poly|, start, n) &&
            SeenCorners(|poly|, start, n + 1) == SeenCorners(|poly|, start, n) + {c} &&
            (c + 1) % |poly| == Corner(poly, start, n + 1)
    ensures Corner(poly, start, n + 1) == start <==> n + 1 == |poly|
  {
    CornerSimple(poly, start, n);
    CornerSimple(poly, start, n + 1);
    var c := Corner(poly, start, n);
    if c + 1 == |poly| { ModUnique(c + 1, |poly|, 1, 0); } else { ModUnique(c + 1, |poly|, 0, c + 1); }
  }

  class Polynode {
    const poly: seq<Edge>
    var linkstarts: seq<nat>
    var linktargets: seq<Target>
    var dist: Best

    constructor (poly: seq<Edge>)
      ensures this.poly == poly && linkstarts == [] && linktargets == []
      ensures dist == Best(UNLINKED, 0, 0, Vec(0, 0), null)
    {
      this.poly := poly;
      linkstarts, linktargets := [], [];
      dist := Best(UNLINKED, 0, 0, Vec(0, 0), null);
    }

    /** Below this outline, followed branches are emptied and the others still hold their links. */
    ghost predicate Branches(att: seq<Polynode>, f: Forest, slot: seq<(nat, nat)>, i: nat, seen: set<nat>, c: nat,
                             jj: nat)
      requires i < |f| && |att| == |slot| == |f|
      reads set k: nat | k < |att| :: att[k]
    {
      forall j, k :: 0 <= j < |f[i].links| && 0 <= k < |f| && Under(slot, f[i].links[j].child, k) ==>
        if Alive(f[i].links, seen, c, jj, j) then Holds(att[k], att, f[k].links) else Emptied(att[k])
    }

    ghost predicate Site(att: seq<Polynode>, f: Forest, slot: seq<(nat, nat)>, i: nat) {
      IsTree(f, slot) && WellFormed(f) && |att| == |slot| == |f| && Distinct(att) && i < |f| && att[i] == this &&
      forall k :: 0 <= k < |f| ==> att[k].poly == f[k].poly
    }

    /** What the traversal knows before it handles link jj of corner c. */
    ghost predicate Visiting(att: seq<Polynode>, f: Forest, slot: seq<(nat, nat)>, i: nat, seen: set<nat>, c: nat,
                             jj: nat)
      reads set k: nat | k < |att| :: att[k]
    {
      Site(att, f, slot, i) && c < |poly| && c !in seen && jj <= |f[i].links| &&
      Holds(this, att, Rest(f[i].links, seen, c, jj, |f[i].links|)) && Branches(att, f, slot, i, seen, c, jj)
    }

    /** Links that leave from another corner are passed over. */
    lemma VisitingSkips(att: seq<Polynode>, f: Forest, slot: seq<(nat, nat)>, i: nat, seen: set<nat>, c: nat, jj: nat,
                        q: nat)
      requires Visiting(att, f, slot, i, seen, c, jj) && jj <= q <= |f[i].links| && Skips(f[i].links, c, jj, q)
      ensures Visiting(att, f, slot, i, seen, c, q)
    {
      hide IsTree, Under, Holds;
      RestSkips(f[i].links, seen, c, jj, q, |f[i].links|);
    }

    /** Follows the first link that leaves from corner c, there and back, and deletes it. */
    method Follow(at: Vec, c: nat, reslist0: seq<Rec>, ghost base: seq<Rec>,
                  ghost att: seq<Polynode>, ghost f: Forest, ghost slot: seq<(nat, nat)>, ghost i: nat,
                  ghost seen: set<nat>, ghost q: nat)
      returns (reslist: seq<Rec>)
      requires Visiting(att, f, slot, i, seen, c, q) && c in linkstarts
      requires q < |f[i].links| ==> f[i].links[q].start == c
      requires reslist0 == base + LinksAt(f, i, at, c, q)
      modifies Subtree(att, slot, i)
      ensures q < |f[i].links| && Visiting(att, f, slot, i, seen, c, q + 1)
      ensures reslist == base + LinksAt(f, i, at, c, q + 1)
      decreases |f| - i, 0
    {
      hide Rest, Skips, Under, IsTree, WellFormed, Visit, Around, Subtree, Listed, FirstIndex;
      var j := FirstIndex(linkstarts, c);
      NextHeld(att, f, slot, i, seen, c, q, j);
      var lt := linktargets[j];
      ghost var links := f[i].links;
      ghost var child := links[q].child;
      SelfInSubtree(att, slot, i);
      SelfOutsideChild(att, f, slot, i, q);
      ChildHolds(att, f, slot, i, seen, c, q);
      SubtreeWithin(att, slot, i, child);
      reslist := reslist0 + [Rec(at, lt.off, true)];
      reslist := lt.node.Traverse(Plus(at, lt.off), lt.index, reslist, att, f, slot, child);
      reslist := reslist + [Rec(Plus(at, lt.off), Neg(lt.off), true)];
      linkstarts := linkstarts[..j] + linkstarts[j + 1..];
      linktargets := linktargets[..j] + linktargets[j + 1..];
      forall j, k | 0 <= j < |links| && 0 <= k < |f| && Under(slot, links[j].child, k)
        ensures if Alive(links, seen, c, q + 1, j) then Holds(att[k], att, f[k].links) else Emptied(att[k])
      {
        BelowNotSelf(att, f, slot, i, j, k);
        if j != q { Apart(att, f, slot, i, j, q, k); }
      }
    }

    /** What hangs below the link to be followed is untouched. */
    lemma ChildHolds(att: seq<Polynode>, f: Forest, slot: seq<(nat, nat)>, i: nat, seen: set<nat>, c: nat, q: nat)
      requires Visiting(att, f, slot, i, seen, c, q) && q < |f[i].links| && f[i].links[q].start == c
      requires LinkOk(f, i, f[i].links[q])
      ensures var child := f[i].links[q].child;
              att[child].Site(att, f, slot, child) && f[i].links[q].index < |att[child].poly| &&
              forall k :: 0 <= k < |f| && Under(slot, child, k) ==> Holds(att[k], att, f[k].links)
    {
      hide Rest, Under, IsTree, WellFormed;
      assert Alive(f[i].links, seen, c, q, q);
    }

    lemma BelowNotSelf(att: seq<Polynode>, f: Forest, slot: seq<(nat, nat)>, i: nat, j: nat, k: nat)
      requires Site(att, f, slot, i) && j < |f[i].links| && k < |f| && Under(slot, f[i].links[j].child, k)
      ensures att[k] != this && k > i
    {
      assert LinkOk(f, i, f[i].links[j]);
    }

    lemma Apart(att: seq<Polynode>, f: Forest, slot: seq<(nat, nat)>, i: nat, j: nat, q: nat, k: nat)
      requires Site(att, f, slot, i) && j < |f[i].links| && q < |f[i].links| && j != q
      requires k < |f| && Under(slot, f[i].links[j].child, k)
      ensures att[k] !in Subtree(att, slot, f[i].links[q].child)
    {
      hide Under, Subtree, WellFormed;
      assert LinkOk(f, i, f[i].links[j]) && LinkOk(f, i, f[i].links[q]);
      Siblings(slot, i, f[i].links[j].child, f[i].links[q].child, k);
      OutsideSubtree(att, slot, f[i].links[q].child, k);
    }

    lemma SelfOutsideChild(att: seq<Polynode>, f: Forest, slot: seq<(nat, nat)>, i: nat, q: nat)
      requires Site(att, f, slot, i) && q < |f[i].links|
      ensures this !in Subtree(att, slot, f[i].links[q].child)
    {
      assert LinkOk(f, i, f[i].links[q]);
      OutsideSubtree(att, slot, f[i].links[q].child, i);
    }

    /** Follows and deletes every link that leaves from corner c. */
    method Branch(at: Vec, c: nat, reslist0: seq<Rec>,
                  ghost att: seq<Polynode>, ghost f: Forest, ghost slot: seq<(nat, nat)>, ghost i: nat,
                  ghost seen: set<nat>)
      returns (reslist: seq<Rec>)
      requires Visiting(att, f, slot, i, seen, c, 0)
      modifies Subtree(att, slot, i)
      ensures Visiting(att, f, slot, i, seen, c, |f[i].links|)
      ensures reslist == reslist0 + LinksAt(f, i, at, c, |f[i].links|)
      decreases |f| - i, 1
    {
      hide Rest, Holds, IsTree, Branches, WellFormed, Subtree;
      reslist := reslist0;
      ghost var jj := 0;
      while c in linkstarts
        invariant Visiting(att, f, slot, i, seen, c, jj)
        invariant reslist == reslist0 + LinksAt(f, i, at, c, jj)
        decreases |f[i].links| - jj
      {
        ghost var q := NextLink(f[i].links, c, jj);
        VisitingSkips(att, f, slot, i, seen, c, jj, q);
        LinksAtSkips(f, i, at, c, jj, q);
        reslist := Follow(at, c, reslist, reslist0, att, f, slot, i, seen, q);
        jj := q + 1;
      }
      ghost var q := NextLink(f[i].links, c, jj);
      VisitingSkips(att, f, slot, i, seen, c, jj, q);
      LinksAtSkips(f, i, at, c, jj, q);
      NoneHeld(att, f, slot, i, seen, c, q);
    }

    lemma NoneHeld(att: seq<Polynode>, f: Forest, slot: seq<(nat, nat)>, i: nat, seen: set<nat>, c: nat, q: nat)
      requires Visiting(att, f, slot, i, seen, c, q) && c !in linkstarts
      requires q < |f[i].links| ==> f[i].links[q].start == c
      ensures q == |f[i].links|
    {
      var links := f[i].links;
      if q < |links| {
        RestNext(links, seen, c, q, |links|);
      }
    }

    /** The first held link of corner c is the next one of the tree. */
    lemma NextHeld(att: seq<Polynode>, f: Forest, slot: seq<(nat, nat)>, i: nat, seen: set<nat>, c: nat, q: nat, j: nat)
      requires Visiting(att, f, slot, i, seen, c, q)
      requires c in linkstarts && j == FirstIndex(linkstarts, c)
      requires q < |f[i].links| ==> f[i].links[q].start == c
      ensures q < |f[i].links| && j < |linktargets| == |linkstarts|
      ensures var l := f[i].links[q];
              LinkOk(f, i, l) && slot[l.child] == (i, q) && linktargets[j] == Target(att[l.child], l.index, l.off) &&
              Listed(linkstarts[..j] + linkstarts[j + 1..], linktargets[..j] + linktargets[j + 1..], att,
                     Rest(f[i].links, seen, c, q + 1, |f[i].links|))
    {
      hide Rest, Branches, Under;
      var links := f[i].links;
      var r := Rest(links, seen, c, q, |links|);
      FirstHeld(links, seen, c, q, linkstarts, j);
      ListedRemoved(linkstarts, linktargets, att, r, j);
      assert LinkOk(f, i, links[q]);
    }

    lemma VisitingStart(att: seq<Polynode>, f: Forest, slot: seq<(nat, nat)>, i: nat, start: nat)
      requires Site(att, f, slot, i) && start < |poly|
      requires forall k :: 0 <= k < |f| && Under(slot, i, k) ==> Holds(att[k], att, f[k].links)
      ensures Visiting(att, f, slot, i, SeenCorners(|poly|, start, 0), start, 0) && Corner(poly, start, 0) == start
    {
      hide Holds;
      var links := f[i].links;
      CornerSimple(poly, start, 0);
      assert SeenCorners(|poly|, start, 0) == {};
      RestStart(links, start, |links|);
      assert links[..|links|] == links;
      assert Under(slot, i, i);
      forall j, k | 0 <= j < |links| && 0 <= k < |f| && Under(slot, links[j].child, k)
        ensures Holds(att[k], att, f[k].links)
      {
        assert LinkOk(f, i, links[j]);
        UnderTrans(slot, i, links[j].child, k);
      }
    }

    lemma VisitingNext(att: seq<Polynode>, f: Forest, slot: seq<(nat, nat)>, i: nat, start: nat, n: nat)
      requires Site(att, f, slot, i) && start < |poly| && n < |poly|
      requires Visiting(att, f, slot, i, SeenCorners(|poly|, start, n), Corner(poly, start, n), |f[i].links|)
      ensures var c := Corner(poly, start, n); (c + 1) % |poly| == Corner(poly, start, n + 1)
      ensures Corner(poly, start, n + 1) == start <==> n + 1 == |poly|
      ensures n + 1 < |poly| ==>
              Visiting(att, f, slot, i, SeenCorners(|poly|, start, n + 1), Corner(poly, start, n + 1), 0)
      ensures Holds(this, att,
              Rest(f[i].links, SeenCorners(|poly|, start, n + 1), Corner(poly, start, n + 1), 0, |f[i].links|))
      ensures Branches(att, f, slot, i, SeenCorners(|poly|, start, n + 1), Corner(poly, start, n + 1), 0)
    {
      hide Holds, Under, IsTree;
      var links := f[i].links;
      var c, seen := Corner(poly, start, n), SeenCorners(|poly|, start, n);
      RoundStep(poly, start, n);
      if n + 1 < |poly| { RoundStep(poly, start, n + 1); }
      RestFrom(links, seen, c, |links|);
      RestOther(links, seen + {c}, c, Corner(poly, start, n + 1), |links|);
    }

    lemma VisitingEnd(att: seq<Polynode>, f: Forest, slot: seq<(nat, nat)>, i: nat, start: nat, n: nat)
      requires Site(att, f, slot, i) && start < |poly| && n == |poly|
      requires Holds(this, att, Rest(f[i].links, SeenCorners(|poly|, start, n), start, 0, |f[i].links|))
      requires Branches(att, f, slot, i, SeenCorners(|poly|, start, n), start, 0)
      ensures forall k :: 0 <= k < |f| && Under(slot, i, k) ==> Emptied(att[k])
    {
      var links := f[i].links;
      var seen := SeenCorners(|poly|, start, n);
      forall j | 0 <= j < |links| ensures links[j].start in seen { assert LinkOk(f, i, links[j]); }
      RestEnd(links, seen, start, 0, |links|);
      forall k | 0 <= k < |f| && Under(slot, i, k)
        ensures Emptied(att[k])
      {
        if k != i {
          var c := BranchOf(slot, f, i, k);
          assert LinkOk(f, slot[c].0, f[i].links[slot[c].1]);
        }
      }
    }

    /** Emits this outline and everything below it, deleting the links on the way. */
    method Traverse(pos: Vec, start: nat, reslist0: seq<Rec>,
                    ghost att: seq<Polynode>, ghost f: Forest, ghost slot: seq<(nat, nat)>, ghost i: nat)
      returns (reslist: seq<Rec>)
      requires Site(att, f, slot, i) && start < |poly|
      requires forall k :: 0 <= k < |f| && Under(slot, i, k) ==> Holds(att[k], att, f[k].links)
      modifies Subtree(att, slot, i)
      ensures reslist == reslist0 + Visit(f, i, pos, start)
      ensures forall k :: 0 <= k < |f| && Under(slot, i, k) ==> Emptied(att[k])
      decreases |f| - i, 2
    {
      hide Rest, Holds, IsTree, Branches, WellFormed, SeenCorners, Corner, Distinct, Emptied;
      reslist := reslist0;
      var p, at := start, pos;
      ghost var n := 0;
      VisitingStart(att, f, slot, i, start);
      while true
        invariant n < |poly| && p == Corner(poly, start, n) && at == PosAt(poly, pos, start, n)
        invariant Visiting(att, f, slot, i, SeenCorners(|poly|, start, n), p, 0)
        invariant reslist == reslist0 + Around(f, i, pos, start, n)
        decreases |poly| - n
      {
        reslist := Branch(at, p, reslist, att, f, slot, i, SeenCorners(|poly|, start, n));
        reslist := reslist + [Rec(at, poly[p].off, false)];
        at := Plus(at, poly[p].off);
        VisitingNext(att, f, slot, i, start, n);
        p := (p + 1) % |poly|;
        n := n + 1;
        if p == start {
          break;
        }
      }
      VisitingEnd(att, f, slot, i, start, n);
    }
  }
}
