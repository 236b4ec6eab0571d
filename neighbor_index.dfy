/** The spatial neighbour index of the simulator. Every node keeps all other nodes in a
    list of (distance, node) pairs sorted ascending; consumers scan it from the front
    and stop at the first pair beyond the transmission range. Nodes are named by their
    ids, which the simulator hands out densely, so an id stands for the node object. */
module NeighborIndex {

  /** A node position. */
  datatype Pos = Pos(x: real, y: real)

  /** The Euclidean distance between two positions, kept abstract: the square root is
      not computed, and any symmetric non-negative function may stand for it. */
  type DistanceFn = (Pos, Pos) -> real

  ghost predicate IsDistance(distance: DistanceFn) {
    forall p, q :: distance(p, q) == distance(q, p) && distance(p, q) >= 0.0
  }

  /** One pair of a neighbour distance list. */
  datatype Entry = Entry(dist: real, id: nat)

  /** The order Python uses on (distance, node) tuples: by distance, ties broken by
      node id through Node.__lt__. */
  predicate Less(a: Entry, b: Entry) {
    a.dist < b.dist || (a.dist == b.dist && a.id < b.id)
  }

  /** Ascending, equal pairs allowed: what `bisect` demands and `list.sort` delivers. */
  predicate Sorted(s: seq<Entry>) {
    forall i, j :: 0 <= i < j < |s| ==> !Less(s[j], s[i])
  }

  predicate StrictlySorted(s: seq<Entry>) {
    forall i, j :: 0 <= i < j < |s| ==> Less(s[i], s[j])
  }

  predicate Distinct(s: seq<Entry>) {
    forall i, j :: 0 <= i < j < |s| ==> s[i] != s[j]
  }

  predicate IdsDistinct(s: seq<Entry>) {
    forall i, j :: 0 <= i < j < |s| ==> s[i].id != s[j].id
  }

  predicate HasId(s: seq<Entry>, who: int) {
    exists i :: 0 <= i < |s| && s[i].id == who
  }

  /** `e` is the pair that node `self` must hold for neighbour `e.id` when the nodes
      stand at `pos`. */
  ghost predicate IsNeighborEntry(e: Entry, self: nat, pos: seq<Pos>, distance: DistanceFn) {
    self < |pos| && e.id < |pos| && e.id != self && e.dist == distance(pos[self], pos[e.id])
  }

  /** The settled neighbour distance list of node `self`: every other node once, with
      its current distance, ascending by (distance, id), N - 1 pairs. */
  ghost predicate Canonical(s: seq<Entry>, self: nat, pos: seq<Pos>, distance: DistanceFn) {
    && self < |pos|
    && StrictlySorted(s)
    && |s| == |pos| - 1
    && forall e :: e in s <==> IsNeighborEntry(e, self, pos, distance)
  }

  // ---------------------------------------------------------------------------
  // bisect.bisect_right / bisect.insort and list.sort

  /** bisect.bisect_right: the insertion point after every pair not greater than `x`. */
  method BisectRight(s: seq<Entry>, x: Entry) returns (k: nat)
    requires Sorted(s)
    ensures k <= |s|
    ensures forall i :: 0 <= i < k ==> !Less(x, s[i])
    ensures forall i :: k <= i < |s| ==> Less(x, s[i])
  {
    var lo, hi := 0, |s|;
    while lo < hi
      invariant 0 <= lo <= hi <= |s|
      invariant forall i :: 0 <= i < lo ==> !Less(x, s[i])
      invariant forall i :: hi <= i < |s| ==> Less(x, s[i])
    {
      var mid := (lo + hi) / 2;
      if Less(x, s[mid]) {
        hi := mid;
      } else {
        lo := mid + 1;
      }
    }
    k := lo;
  }

  /** Putting `x` at its bisect_right position keeps a sorted list sorted. */
  lemma InsertAtKeepsOrder(s: seq<Entry>, x: Entry, k: nat)
    requires Sorted(s) && k <= |s|
    requires forall i :: 0 <= i < k ==> !Less(x, s[i])
    requires forall i :: k <= i < |s| ==> Less(x, s[i])
    ensures Sorted(s[..k] + [x] + s[k..])
    ensures StrictlySorted(s) && x !in s ==> StrictlySorted(s[..k] + [x] + s[k..])
  {
    var r := s[..k] + [x] + s[k..];
    forall i, j | 0 <= i < j < |r|
      ensures !Less(r[j], r[i])
      ensures StrictlySorted(s) && x !in s ==> Less(r[i], r[j])
    {
      if j < k {
        assert r[i] == s[i] && r[j] == s[j];
      } else if i > k {
        assert r[i] == s[i - 1] && r[j] == s[j - 1];
      } else if i == k {
        assert r[i] == x && r[j] == s[j - 1];
      } else if j == k {
        assert r[i] == s[i] && r[j] == x;
      } else {
        assert r[i] == s[i] && r[j] == s[j - 1];
      }
    }
  }

  /** bisect.insort: `x` joins the list and the list stays sorted. */
  method Insort(s: seq<Entry>, x: Entry) returns (r: seq<Entry>)
    requires Sorted(s)
    ensures Sorted(r)
    ensures multiset(r) == multiset(s) + multiset{x}
    ensures StrictlySorted(s) && x !in s ==> StrictlySorted(r)
  {
    var k := BisectRight(s, x);
    InsertAtKeepsOrder(s, x, k);
    r := s[..k] + [x] + s[k..];
    assert s == s[..k] + s[k..];
  }

  /** list.sort on a list of pairs, written as repeated insertion; a sorted arrangement
      of given pairs is unique (SortedSameMembersEqual), so this is the list Python's
      sort produces. */
  method SortEntries(s: seq<Entry>) returns (r: seq<Entry>)
    ensures Sorted(r)
    ensures multiset(r) == multiset(s)
    ensures Distinct(s) ==> StrictlySorted(r)
  {
    r := [];
    for i := 0 to |s|
      invariant Sorted(r)
      invariant multiset(r) == multiset(s[..i])
      invariant Distinct(s) ==> StrictlySorted(r)
    {
      assert s[..i + 1] == s[..i] + [s[i]];
      if Distinct(s) {
        assert s[i] !in s[..i];
        assert s[i] !in multiset(r);
      }
      r := Insort(r, s[i]);
    }
    assert s[..|s|] == s;
  }

  // ---------------------------------------------------------------------------
  // Removing the stale pair of a node

  /** The list with the first pair naming `who` deleted (the `del nlist[i]; break` scan). */
  function RemoveFirst(s: seq<Entry>, who: nat): seq<Entry>
  {
    if s == [] then []
    else if s[0].id == who then s[1..]
    else [s[0]] + RemoveFirst(s[1..], who)
  }

  lemma {:induction false} RemoveFirstAt(s: seq<Entry>, who: nat, i: nat)
    requires i < |s| && s[i].id == who
    requires forall j :: 0 <= j < i ==> s[j].id != who
    ensures RemoveFirst(s, who) == s[..i] + s[i + 1..]
  {
    if i > 0 {
      RemoveFirstAt(s[1..], who, i - 1);
      assert s[1..][..i - 1] == s[1..i];
      assert s[1..][i..] == s[i + 1..];
      assert s[..i] == [s[0]] + s[1..i];
    }
  }

  lemma {:induction false} RemoveFirstAbsent(s: seq<Entry>, who: nat)
    requires forall j :: 0 <= j < |s| ==> s[j].id != who
    ensures RemoveFirst(s, who) == s
  {
    if s != [] {
      RemoveFirstAbsent(s[1..], who);
    }
  }

  /** The `del nlist[i]; break` loop of update_neighbor_list. */
  method RemoveNeighbor(s: seq<Entry>, who: nat) returns (r: seq<Entry>)
    ensures r == RemoveFirst(s, who)
  {
    var i := 0;
    while i < |s|
      invariant 0 <= i <= |s|
      invariant forall j :: 0 <= j < i ==> s[j].id != who
    {
      if s[i].id == who {
        RemoveFirstAt(s, who, i);
        return s[..i] + s[i + 1..];
      }
      i := i + 1;
    }
    RemoveFirstAbsent(s, who);
    return s;
  }

  /** Deleting the pair at index `i` keeps the order. */
  lemma DeleteAtKeepsOrder(s: seq<Entry>, i: nat)
    requires i < |s| && StrictlySorted(s)
    ensures StrictlySorted(s[..i] + s[i + 1..])
  {
    var r := s[..i] + s[i + 1..];
    forall a, b | 0 <= a < b < |r| ensures Less(r[a], r[b]) {
      if b < i {
        assert r[a] == s[a] && r[b] == s[b];
      } else if a >= i {
        assert r[a] == s[a + 1] && r[b] == s[b + 1];
      } else {
        assert r[a] == s[a] && r[b] == s[b + 1];
      }
    }
  }

  /** Deleting the pair at index `i` of a list with distinct ids drops exactly the
      pairs naming that pair's node. */
  lemma DeleteAtMembers(s: seq<Entry>, i: nat)
    requires i < |s| && IdsDistinct(s)
    ensures forall e :: e in s[..i] + s[i + 1..] <==> e in s && e.id != s[i].id
  {
    var r := s[..i] + s[i + 1..];
    forall e ensures e in r <==> e in s && e.id != s[i].id {
      if e in r {
        var k :| 0 <= k < |r| && r[k] == e;
        if k < i { assert r[k] == s[k]; } else { assert r[k] == s[k + 1]; }
      }
      if e in s && e.id != s[i].id {
        var k :| 0 <= k < |s| && s[k] == e;
        if k < i { assert r[k] == e; } else { assert r[k - 1] == e; }
      }
    }
  }

  /** Deleting a node's pair from a list whose ids are distinct drops exactly that node,
      shortens the list by one when the node was there, and keeps the order. */
  lemma RemoveFirstProperties(s: seq<Entry>, who: nat)
    requires IdsDistinct(s)
    ensures forall e :: e in RemoveFirst(s, who) <==> e in s && e.id != who
    ensures |RemoveFirst(s, who)| == if HasId(s, who) then |s| - 1 else |s|
    ensures StrictlySorted(s) ==> StrictlySorted(RemoveFirst(s, who))
  {
    if HasId(s, who) {
      var i :| 0 <= i < |s| && s[i].id == who;
      RemoveFirstAt(s, who, i);
      DeleteAtMembers(s, i);
      if StrictlySorted(s) {
        DeleteAtKeepsOrder(s, i);
      }
    } else {
      RemoveFirstAbsent(s, who);
    }
  }

  // ---------------------------------------------------------------------------
  // Facts about settled lists

  /** Two strictly sorted lists holding the same pairs are the same list. */
  lemma {:induction false} SortedSameMembersEqual(a: seq<Entry>, b: seq<Entry>)
    requires StrictlySorted(a) && StrictlySorted(b)
    requires forall e :: e in a <==> e in b
    ensures a == b
  {
    assert |a| > 0 ==> a[0] in a;
    assert |b| > 0 ==> b[0] in b;
    assert |a| > 0 <==> |b| > 0;
    if |a| > 0 {
      // both heads are the least pair of the same set
      assert a[0] in b && b[0] in a;
      assert !Less(b[0], a[0]) && !Less(a[0], b[0]);
      assert a[0] == b[0];
      forall e ensures e in a[1..] <==> e in b[1..] {
        if e in a[1..] {
          var i :| 1 <= i < |a| && a[i] == e;
          assert Less(a[0], e);
          assert e in b;
        }
        if e in b[1..] {
          var i :| 1 <= i < |b| && b[i] == e;
          assert Less(b[0], e);
          assert e in a;
        }
      }
      SortedSameMembersEqual(a[1..], b[1..]);
      assert a == [a[0]] + a[1..] && b == [b[0]] + b[1..];
    }
  }

  /** A settled list names each node at most once. */
  lemma CanonicalIdsDistinct(s: seq<Entry>, self: nat, pos: seq<Pos>, distance: DistanceFn)
    requires Canonical(s, self, pos, distance)
    ensures IdsDistinct(s)
  {
    forall i, j | 0 <= i < j < |s| ensures s[i].id != s[j].id {
      assert s[i] in s && s[j] in s;
      assert Less(s[i], s[j]);
    }
  }

  /** The settled list of a node holds each other node exactly once and never the node
      itself, in ascending (distance, id) order. */
  lemma CanonicalIsNeighborList(s: seq<Entry>, self: nat, pos: seq<Pos>, distance: DistanceFn)
    requires Canonical(s, self, pos, distance)
    ensures |s| == |pos| - 1
    ensures forall i :: 0 <= i < |s| ==> s[i].id != self && s[i].id < |pos|
    ensures forall j :: 0 <= j < |pos| && j != self ==> Entry(distance(pos[self], pos[j]), j) in s
    ensures IdsDistinct(s)
    ensures forall i, j :: 0 <= i < j < |s| ==>
              s[i].dist < s[j].dist || (s[i].dist == s[j].dist && s[i].id < s[j].id)
  {
    forall i | 0 <= i < |s| ensures s[i].id != self && s[i].id < |pos| {
      assert s[i] in s;
    }
    forall j | 0 <= j < |pos| && j != self
      ensures Entry(distance(pos[self], pos[j]), j) in s
    {
      assert IsNeighborEntry(Entry(distance(pos[self], pos[j]), j), self, pos, distance);
    }
    CanonicalIdsDistinct(s, self, pos, distance);
  }

  /** The settled list is a function of the positions alone: recomputing it with no
      position change gives the same list. */
  lemma CanonicalUnique(a: seq<Entry>, b: seq<Entry>, self: nat, pos: seq<Pos>, distance: DistanceFn)
    requires Canonical(a, self, pos, distance) && Canonical(b, self, pos, distance)
    ensures a == b
  {
    SortedSameMembersEqual(a, b);
  }

  // ---------------------------------------------------------------------------
  // The early-terminating range scan (Node.neighbors, Node.send, PHY send_pdu)

  /** The longest prefix of the list whose distances are within `range`. */
  function InRange(s: seq<Entry>, range: real): (p: seq<Entry>)
    ensures |p| <= |s| && p == s[..|p|]
    ensures forall i :: 0 <= i < |p| ==> p[i].dist <= range
    ensures |p| < |s| ==> s[|p|].dist > range
  {
    if s == [] || s[0].dist > range then [] else [s[0]] + InRange(s[1..], range)
  }

  /** On a list sorted by distance the scan finds exactly the pairs within range. */
  lemma InRangeIsFilter(s: seq<Entry>, range: real)
    requires Sorted(s)
    ensures forall e :: e in InRange(s, range) <==> e in s && e.dist <= range
  {
    var p := InRange(s, range);
    forall e | e in s && e.dist <= range ensures e in p {
      var i :| 0 <= i < |s| && s[i] == e;
      if i >= |p| {
        assert false;
      }
      assert p[i] == s[i];
    }
  }

  /** The ids of the pairs, in list order. */
  function Ids(s: seq<Entry>): (ids: seq<nat>)
    ensures |ids| == |s|
    ensures forall i :: 0 <= i < |s| ==> ids[i] == s[i].id
  {
    if s == [] then [] else [s[0].id] + Ids(s[1..])
  }
}
