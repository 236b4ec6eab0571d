/** The simulator's node collection and the bare (non-layered) node: ids handed out in
    creation order, the neighbour index kept settled on every add and move, and the
    baseline `send` that delivers straight to in-range neighbours. */
module Simulation {
  import opened NeighborIndex
  import opened Pdus

  predicate Addressed(dst: int, id: nat) {
    dst == BROADCAST_ADDR || dst == id
  }

  /** A scheduled call of `on_receive(sender, ...)` at node `target`, `delay` seconds on. */
  datatype Delivery = Delivery(delay: real, target: nat, sender: nat, message: string)

  /** What `send(dst)` schedules for the in-range pairs `p`, in list order: a delivery
      for each pair whose node `dst` addresses, after dist / 1000000 seconds. */
  function Deliveries(p: seq<Entry>, dst: int, sender: nat, message: string): seq<Delivery>
  {
    if p == [] then []
    else
      var e := p[|p| - 1];
      Deliveries(p[..|p| - 1], dst, sender, message)
        + (if Addressed(dst, e.id) then [Delivery(e.dist / 1000000.0, e.id, sender, message)] else [])
  }

  /** A broadcast reaches every in-range pair once, in list order. */
  lemma {:induction false} DeliveriesBroadcast(p: seq<Entry>, sender: nat, message: string)
    ensures |Deliveries(p, BROADCAST_ADDR, sender, message)| == |p|
    ensures forall k :: 0 <= k < |p| ==>
              Deliveries(p, BROADCAST_ADDR, sender, message)[k] == Delivery(p[k].dist / 1000000.0, p[k].id, sender, message)
  {
    if p != [] {
      DeliveriesBroadcast(p[..|p| - 1], sender, message);
    }
  }

  /** Every delivery goes to an addressed in-range pair, and every addressed in-range
      pair gets one. */
  lemma {:induction false} DeliveriesMembers(p: seq<Entry>, dst: int, sender: nat, message: string)
    ensures forall d :: d in Deliveries(p, dst, sender, message) ==>
              d.sender == sender && exists e :: e in p && Addressed(dst, e.id) && d == Delivery(e.dist / 1000000.0, e.id, sender, message)
    ensures forall e :: e in p && Addressed(dst, e.id) ==> Delivery(e.dist / 1000000.0, e.id, sender, message) in Deliveries(p, dst, sender, message)
  {
    if p != [] {
      var q := p[..|p| - 1];
      DeliveriesMembers(q, dst, sender, message);
      assert p == q + [p[|p| - 1]];
    }
  }

  /** A unicast reaches at most one node, the one named `dst`, and only if it is in range. */
  lemma {:induction false} DeliveriesUnicast(p: seq<Entry>, dst: int, sender: nat, message: string)
    requires dst != BROADCAST_ADDR && IdsDistinct(p)
    ensures |Deliveries(p, dst, sender, message)| <= 1
    ensures |Deliveries(p, dst, sender, message)| == 1 <==> HasId(p, dst)
    ensures forall d :: d in Deliveries(p, dst, sender, message) ==> d.target == dst
  {
    if p != [] {
      var q := p[..|p| - 1];
      assert IdsDistinct(q);
      DeliveriesUnicast(q, dst, sender, message);
      if p[|p| - 1].id == dst {
        assert !HasId(q, dst);
      }
      assert HasId(p, dst) <==> HasId(q, dst) || p[|p| - 1].id == dst;
    }
  }

  /** A bare node. The source's Node object also holds the simulator back-reference and
      a logging flag; here the simulator owns the nodes and logging is left out. */
  class Node {
    const id: nat
    var pos: Pos
    var txRange: real
    var neighborDistanceList: seq<Entry>

    constructor (id: nat, pos: Pos, txRange: real)
      ensures this.id == id && this.pos == pos && this.txRange == txRange
      ensures neighborDistanceList == []
    {
      this.id := id;
      this.pos := pos;
      this.txRange := txRange;
      neighborDistanceList := [];
    }

    /** The `neighbors` property: the ids of the longest in-range prefix of the list. */
    method Neighbors() returns (ns: seq<nat>)
      ensures ns == Ids(InRange(neighborDistanceList, txRange))
    {
      var list := neighborDistanceList;
      ns := [];
      var i := 0;
      while i < |list|
        invariant 0 <= i <= |list|
        invariant forall k :: 0 <= k < i ==> list[k].dist <= txRange
        invariant ns == Ids(list[..i])
      {
        if list[i].dist <= txRange {
          assert list[..i + 1] == list[..i] + [list[i]];
          ns := ns + [list[i].id];
        } else {
          break;
        }
        i := i + 1;
      }
      assert InRange(list, txRange) == list[..i];
    }

    /** The baseline `send(dst)`: walk the list up to the first pair out of range and
        schedule `on_receive` at each addressed neighbour. An unknown or out-of-range
        destination schedules nothing. */
    method Send(dst: int, message: string) returns (ds: seq<Delivery>)
      ensures ds == Deliveries(InRange(neighborDistanceList, txRange), dst, id, message)
    {
      var list := neighborDistanceList;
      ds := [];
      var i := 0;
      while i < |list|
        invariant 0 <= i <= |list|
        invariant forall k :: 0 <= k < i ==> list[k].dist <= txRange
        invariant ds == Deliveries(list[..i], dst, id, message)
      {
        var e := list[i];
        if e.dist <= txRange {
          if dst == BROADCAST_ADDR || dst == e.id {
            ds := ds + [Delivery(e.dist / 1000000.0, e.id, id, message)];
          }
        } else {
          break;
        }
        assert list[..i + 1][..i] == list[..i];
        i := i + 1;
      }
      assert InRange(list, txRange) == list[..i];
    }
  }

  /** `before` is the layout the index was last settled for: it differs from `pos` only
      in node `who`, which has moved or has just been appended. */
  ghost predicate Moved(before: seq<Pos>, pos: seq<Pos>, who: nat) {
    && who < |pos|
    && (|before| == |pos| || (|before| + 1 == |pos| && who + 1 == |pos|))
    && forall j :: 0 <= j < |before| && j != who ==> before[j] == pos[j]
  }

  /** Removing the stale pair of node `who` from a settled list leaves every other node's
      pair, at its unchanged distance, in order. */
  lemma StaleRemoved(s: seq<Entry>, self: nat, who: nat, before: seq<Pos>, pos: seq<Pos>, distance: DistanceFn)
    requires Canonical(s, self, before, distance) && Moved(before, pos, who)
    requires self != who && self < |pos|
    ensures StrictlySorted(RemoveFirst(s, who))
    ensures |RemoveFirst(s, who)| == |pos| - 2
    ensures forall e :: e in RemoveFirst(s, who) <==> IsNeighborEntry(e, self, pos, distance) && e.id != who
  {
    CanonicalIdsDistinct(s, self, before, distance);
    RemoveFirstProperties(s, who);
    if |before| == |pos| {
      var x := Entry(distance(before[self], before[who]), who);
      assert IsNeighborEntry(x, self, before, distance);
      assert x in s;
      var i :| 0 <= i < |s| && s[i] == x;
      assert HasId(s, who);
    } else {
      forall i | 0 <= i < |s| ensures s[i].id != who {
        assert s[i] in s;
      }
      assert !HasId(s, who);
    }
    forall e ensures e in RemoveFirst(s, who) <==> IsNeighborEntry(e, self, pos, distance) && e.id != who {
      assert e.id != who ==> (IsNeighborEntry(e, self, pos, distance) <==> IsNeighborEntry(e, self, before, distance));
    }
  }

  /** Inserting the fresh pair of node `who` into the list without its stale pair settles
      the list for the new layout. */
  lemma FreshInserted(m: seq<Entry>, r: seq<Entry>, self: nat, who: nat, pos: seq<Pos>, distance: DistanceFn)
    requires self != who && self < |pos| && who < |pos|
    requires |m| == |pos| - 2
    requires forall e :: e in m <==> IsNeighborEntry(e, self, pos, distance) && e.id != who
    requires StrictlySorted(r)
    requires multiset(r) == multiset(m) + multiset{Entry(distance(pos[self], pos[who]), who)}
    ensures Canonical(r, self, pos, distance)
  {
    assert |r| == |multiset(r)|;
    forall e ensures e in r <==> IsNeighborEntry(e, self, pos, distance) {
      assert e in r <==> e in multiset(r);
      assert e in m <==> e in multiset(m);
    }
  }

  /** The rebuilt own list, sorted, is the settled list. */
  lemma OwnListSettles(b: seq<Entry>, r: seq<Entry>, self: nat, pos: seq<Pos>, distance: DistanceFn)
    requires IsDistance(distance) && self < |pos|
    requires |b| == |pos| - 1
    requires forall e :: e in b <==> e.id < |pos| && e.id != self && e.dist == distance(pos[e.id], pos[self])
    requires StrictlySorted(r) && multiset(r) == multiset(b)
    ensures Canonical(r, self, pos, distance)
  {
    assert |r| == |multiset(r)| == |multiset(b)| == |b|;
    forall e ensures e in r <==> IsNeighborEntry(e, self, pos, distance) {
      assert e in r <==> e in multiset(r);
      assert e in b <==> e in multiset(b);
      if e.id < |pos| {
        assert distance(pos[e.id], pos[self]) == distance(pos[self], pos[e.id]);
      }
    }
  }

  /** A settled list is sorted in the sense the range scan needs. */
  lemma CanonicalSorted(s: seq<Entry>, self: nat, pos: seq<Pos>, distance: DistanceFn)
    requires Canonical(s, self, pos, distance)
    ensures Sorted(s)
  {
    forall i, j | 0 <= i < j < |s| ensures !Less(s[j], s[i]) {
      assert Less(s[i], s[j]);
    }
  }

  /** The in-range prefix of a settled list holds exactly the pairs of the other nodes
      within range, each node at most once. */
  lemma SettledInRange(s: seq<Entry>, self: nat, pos: seq<Pos>, distance: DistanceFn, txRange: real)
    requires Canonical(s, self, pos, distance)
    ensures forall e :: e in InRange(s, txRange) <==> IsNeighborEntry(e, self, pos, distance) && e.dist <= txRange
    ensures IdsDistinct(InRange(s, txRange))
    ensures forall a, b :: 0 <= a < b < |InRange(s, txRange)| ==> InRange(s, txRange)[a].dist <= InRange(s, txRange)[b].dist
  {
    var p := InRange(s, txRange);
    CanonicalIsNeighborList(s, self, pos, distance);
    CanonicalSorted(s, self, pos, distance);
    InRangeIsFilter(s, txRange);
    forall a, b | 0 <= a < b < |p| ensures p[a].id != p[b].id && p[a].dist <= p[b].dist {
      assert p[a] == s[a] && p[b] == s[b];
    }
  }

  /** With the index settled, `neighbors` of node `self` lists exactly the other nodes
      within its range, each once, nearest first. */
  lemma SettledNeighbors(s: seq<Entry>, self: nat, pos: seq<Pos>, distance: DistanceFn, txRange: real)
    requires Canonical(s, self, pos, distance)
    ensures forall k :: 0 <= k < |Ids(InRange(s, txRange))| ==>
              Ids(InRange(s, txRange))[k] < |pos| && Ids(InRange(s, txRange))[k] != self
    ensures forall j :: 0 <= j < |pos| ==>
              (j in Ids(InRange(s, txRange)) <==> j != self && distance(pos[self], pos[j]) <= txRange)
    ensures forall a, b :: 0 <= a < b < |Ids(InRange(s, txRange))| ==>
              && Ids(InRange(s, txRange))[a] != Ids(InRange(s, txRange))[b]
              && distance(pos[self], pos[Ids(InRange(s, txRange))[a]]) <= distance(pos[self], pos[Ids(InRange(s, txRange))[b]])
  {
    var p := InRange(s, txRange);
    var ns := Ids(p);
    SettledInRange(s, self, pos, distance, txRange);
    forall k | 0 <= k < |ns| ensures ns[k] < |pos| && ns[k] != self {
      assert p[k] in p;
    }
    forall j | 0 <= j < |pos| ensures j in ns <==> j != self && distance(pos[self], pos[j]) <= txRange {
      if j in ns {
        var k :| 0 <= k < |ns| && ns[k] == j;
        assert p[k] in p;
      }
      if j != self && distance(pos[self], pos[j]) <= txRange {
        var e := Entry(distance(pos[self], pos[j]), j);
        assert e in p;
        var k :| 0 <= k < |p| && p[k] == e;
        assert ns[k] == j;
      }
    }
    forall a, b | 0 <= a < b < |ns|
      ensures ns[a] != ns[b] && distance(pos[self], pos[ns[a]]) <= distance(pos[self], pos[ns[b]])
    {
      assert p[a] in p && p[b] in p;
    }
  }

  /** With the index settled, `send(dst)` from node `self` reaches node j exactly when j
      is another node within range that `dst` names (every such node for a
      broadcast), after distance / 1e6 seconds, with the arguments sent. */
  lemma SettledSendReach(s: seq<Entry>, self: nat, pos: seq<Pos>, distance: DistanceFn, txRange: real, dst: int, message: string)
    requires Canonical(s, self, pos, distance)
    ensures forall j :: 0 <= j < |pos| ==>
              (Delivery(distance(pos[self], pos[j]) / 1000000.0, j, self, message) in Deliveries(InRange(s, txRange), dst, self, message) <==>
                 j != self && Addressed(dst, j) && distance(pos[self], pos[j]) <= txRange)
  {
    forall j | 0 <= j < |pos|
      ensures Delivery(distance(pos[self], pos[j]) / 1000000.0, j, self, message) in Deliveries(InRange(s, txRange), dst, self, message) <==>
                j != self && Addressed(dst, j) && distance(pos[self], pos[j]) <= txRange
    {
      SendReachesOne(s, self, pos, distance, txRange, dst, message, j);
    }
  }

  lemma SendReachesOne(s: seq<Entry>, self: nat, pos: seq<Pos>, distance: DistanceFn, txRange: real, dst: int, message: string, j: nat)
    requires Canonical(s, self, pos, distance) && j < |pos|
    ensures Delivery(distance(pos[self], pos[j]) / 1000000.0, j, self, message) in Deliveries(InRange(s, txRange), dst, self, message) <==>
              j != self && Addressed(dst, j) && distance(pos[self], pos[j]) <= txRange
  {
    var p := InRange(s, txRange);
    var e := Entry(distance(pos[self], pos[j]), j);
    if j != self && Addressed(dst, j) && e.dist <= txRange {
      InRangeMember(s, self, pos, distance, txRange, e);
      DeliveryOfMember(p, dst, self, message, e);
    }
    if Delivery(e.dist / 1000000.0, j, self, message) in Deliveries(p, dst, self, message) {
      var e' := DeliveredMember(p, dst, self, message, Delivery(e.dist / 1000000.0, j, self, message));
      InRangeMember(s, self, pos, distance, txRange, e');
    }
  }

  /** One pair is in the in-range prefix of a settled list exactly when it is another
      node's pair within range. */
  lemma InRangeMember(s: seq<Entry>, self: nat, pos: seq<Pos>, distance: DistanceFn, txRange: real, e: Entry)
    requires Canonical(s, self, pos, distance)
    ensures e in InRange(s, txRange) <==> IsNeighborEntry(e, self, pos, distance) && e.dist <= txRange
  {
    SettledInRange(s, self, pos, distance, txRange);
  }

  /** An addressed pair of the scanned prefix gets its delivery. */
  lemma DeliveryOfMember(p: seq<Entry>, dst: int, sender: nat, message: string, e: Entry)
    requires e in p && Addressed(dst, e.id)
    ensures Delivery(e.dist / 1000000.0, e.id, sender, message) in Deliveries(p, dst, sender, message)
  {
    DeliveriesMembers(p, dst, sender, message);
  }

  /** Every delivery comes from an addressed pair of the scanned prefix. */
  lemma DeliveredMember(p: seq<Entry>, dst: int, sender: nat, message: string, d: Delivery) returns (e: Entry)
    requires d in Deliveries(p, dst, sender, message)
    ensures e in p && Addressed(dst, e.id) && d == Delivery(e.dist / 1000000.0, e.id, sender, message)
  {
    DeliveriesMembers(p, dst, sender, message);
    e :| e in p && Addressed(dst, e.id) && d == Delivery(e.dist / 1000000.0, e.id, sender, message);
  }

  /** With the index settled, every call `send(dst)` schedules goes to a distinct other
      node within range that `dst` names, delayed by its distance / 1e6. */
  lemma SettledSendSound(s: seq<Entry>, self: nat, pos: seq<Pos>, distance: DistanceFn, txRange: real, dst: int, message: string)
    requires Canonical(s, self, pos, distance)
    ensures forall d :: d in Deliveries(InRange(s, txRange), dst, self, message) ==>
              && d.sender == self && d.message == message && d.target < |pos| && d.target != self && Addressed(dst, d.target)
              && d.delay == distance(pos[self], pos[d.target]) / 1000000.0
              && distance(pos[self], pos[d.target]) <= txRange
    ensures forall a, b :: 0 <= a < b < |Deliveries(InRange(s, txRange), dst, self, message)| ==>
              Deliveries(InRange(s, txRange), dst, self, message)[a].target != Deliveries(InRange(s, txRange), dst, self, message)[b].target
  {
    var p := InRange(s, txRange);
    var ds := Deliveries(p, dst, self, message);
    SettledInRange(s, self, pos, distance, txRange);
    DeliveriesMembers(p, dst, self, message);
    forall d | d in ds
      ensures && d.sender == self && d.message == message && d.target < |pos| && d.target != self && Addressed(dst, d.target)
              && d.delay == distance(pos[self], pos[d.target]) / 1000000.0
              && distance(pos[self], pos[d.target]) <= txRange
    {
      var e :| e in p && Addressed(dst, e.id) && d == Delivery(e.dist / 1000000.0, e.id, self, message);
      assert IsNeighborEntry(e, self, pos, distance);
    }
    if dst == BROADCAST_ADDR {
      DeliveriesBroadcast(p, self, message);
    } else {
      DeliveriesUnicast(p, dst, self, message);
    }
  }

  /** The simulator: the node collection and the neighbour index over it. The SimPy
      environment, the run horizon and the random generator are not part of this class. */
  class Simulator {
    const distance: DistanceFn
    var nodes: seq<Node>

    ghost function Positions(): (ps: seq<Pos>)
      reads this, nodes
      ensures |ps| == |nodes|
      ensures forall i :: 0 <= i < |nodes| ==> ps[i] == nodes[i].pos
    {
      seq(|nodes|, i reads this, nodes requires 0 <= i < |nodes| => nodes[i].pos)
    }

    /** Every node's id is its index, and every neighbour list is settled. */
    ghost predicate Valid()
      reads this, nodes
    {
      && IsDistance(distance)
      && (forall i :: 0 <= i < |nodes| ==> nodes[i].id == i)
      && forall i :: 0 <= i < |nodes| ==> Canonical(nodes[i].neighborDistanceList, i, Positions(), distance)
    }

    constructor (distance: DistanceFn)
      requires IsDistance(distance)
      ensures Valid() && this.distance == distance && nodes == []
    {
      this.distance := distance;
      nodes := [];
    }

    /** `add_node`: the new node gets id len(nodes), is appended, and the index is
        settled for it. */
    method AddNode(pos: Pos, txRange: real) returns (node: Node)
      requires Valid()
      modifies this, nodes
      ensures Valid()
      ensures fresh(node) && nodes == old(nodes) + [node]
      ensures node.id == old(|nodes|) && node.pos == pos && node.txRange == txRange
      ensures forall i :: 0 <= i < old(|nodes|) ==> nodes[i].pos == old(nodes[i].pos) && nodes[i].txRange == old(nodes[i].txRange)
    {
      ghost var before := Positions();
      var id := |nodes|;
      node := new Node(id, pos, txRange);
      nodes := nodes + [node];
      assert Positions() == before + [pos];
      UpdateNeighborList(id, before);
    }

    /** `Node.move`: the node takes its new position and the index is settled for it. */
    method Move(id: nat, pos: Pos)
      requires Valid() && id < |nodes|
      modifies nodes
      ensures Valid()
      ensures nodes[id].pos == pos && nodes[id].txRange == old(nodes[id].txRange)
      ensures forall i :: 0 <= i < |nodes| && i != id ==> nodes[i].pos == old(nodes[i].pos) && nodes[i].txRange == old(nodes[i].txRange)
    {
      ghost var before := Positions();
      nodes[id].pos := pos;
      UpdateNeighborList(id, before);
    }

    /** `update_neighbor_list(id)`: in every other node's list, drop the stale pair of
        node `id` and insort its fresh one; then rebuild and sort the list of node `id`.
        Afterwards every list is settled; with no position change it changes nothing. */
    method UpdateNeighborList(id: nat, ghost before: seq<Pos>)
      requires IsDistance(distance)
      requires forall i :: 0 <= i < |nodes| ==> nodes[i].id == i
      requires Moved(before, Positions(), id)
      requires forall i :: 0 <= i < |nodes| && i != id ==> Canonical(nodes[i].neighborDistanceList, i, before, distance)
      modifies nodes
      ensures Valid()
      ensures forall i :: 0 <= i < |nodes| ==> nodes[i].pos == old(nodes[i].pos) && nodes[i].txRange == old(nodes[i].txRange)
      ensures old(Valid()) && before == Positions() ==>
                forall i :: 0 <= i < |nodes| ==> nodes[i].neighborDistanceList == old(nodes[i].neighborDistanceList)
    {
      ghost var pos := Positions();
      ReinsertEverywhere(id, before);
      var built := OwnPairs(id);
      var own := SortEntries(built);
      OwnListSettles(built, own, id, pos, distance);
      nodes[id].neighborDistanceList := own;
      assert Positions() == pos;
      if old(Valid()) && before == pos {
        forall i | 0 <= i < |nodes|
          ensures nodes[i].neighborDistanceList == old(nodes[i].neighborDistanceList)
        {
          CanonicalUnique(nodes[i].neighborDistanceList, old(nodes[i].neighborDistanceList), i, pos, distance);
        }
      }
    }

    /** The first loop of update_neighbor_list: every other node's list gets the fresh
        pair of node `id` in place of its stale one. */
    method ReinsertEverywhere(id: nat, ghost before: seq<Pos>)
      requires IsDistance(distance)
      requires forall i :: 0 <= i < |nodes| ==> nodes[i].id == i
      requires Moved(before, Positions(), id)
      requires forall i :: 0 <= i < |nodes| && i != id ==> Canonical(nodes[i].neighborDistanceList, i, before, distance)
      modifies nodes
      ensures forall i :: 0 <= i < |nodes| ==> nodes[i].pos == old(nodes[i].pos) && nodes[i].txRange == old(nodes[i].txRange)
      ensures nodes[id].neighborDistanceList == old(nodes[id].neighborDistanceList)
      ensures forall i :: 0 <= i < |nodes| && i != id ==> Canonical(nodes[i].neighborDistanceList, i, Positions(), distance)
    {
      ghost var pos := Positions();
      var me := nodes[id];
      for j := 0 to |nodes|
        invariant forall i :: 0 <= i < |nodes| ==> nodes[i].pos == old(nodes[i].pos) && nodes[i].txRange == old(nodes[i].txRange)
        invariant forall i :: 0 <= i < j && i != id ==> Canonical(nodes[i].neighborDistanceList, i, pos, distance)
        invariant forall i :: j <= i < |nodes| ==> nodes[i].neighborDistanceList == old(nodes[i].neighborDistanceList)
        invariant nodes[id].neighborDistanceList == old(nodes[id].neighborDistanceList)
      {
        if j != id {
          var n := nodes[j];
          var stale := n.neighborDistanceList;
          StaleRemoved(stale, j, id, before, pos, distance);
          var nlist := RemoveNeighbor(stale, id);
          var entry := Entry(distance(n.pos, me.pos), id);
          assert entry !in nlist;
          nlist := Insort(nlist, entry);
          FreshInserted(RemoveFirst(stale, id), nlist, j, id, pos, distance);
          n.neighborDistanceList := nlist;
        }
      }
      assert Positions() == pos;
    }

    /** The comprehension of update_neighbor_list: a pair for every other node, with the
        distance from that node to node `id`, in node order. */
    method OwnPairs(id: nat) returns (built: seq<Entry>)
      requires id < |nodes|
      ensures |built| == |nodes| - 1
      ensures Distinct(built)
      ensures forall a, c :: 0 <= a < c < |built| ==> built[a].id < built[c].id
      ensures forall e :: e in built <==> e.id < |nodes| && e.id != id && e.dist == distance(Positions()[e.id], Positions()[id])
    {
      ghost var pos := Positions();
      var me := nodes[id];
      built := [];
      for k := 0 to |nodes|
        invariant |built| == if k <= id then k else k - 1
        invariant forall a, c :: 0 <= a < c < |built| ==> built[a].id < built[c].id
        invariant forall e :: e in built <==> e.id < k && e.id != id && e.dist == distance(pos[e.id], pos[id])
      {
        if k != id {
          built := built + [Entry(distance(nodes[k].pos, me.pos), k)];
        }
      }
    }
  }
}
