/** Sorted linked lists of times (opencog/atomspace/TemporalEntry.cc). */
module TemporalEntries {
  import opened Temporals

  /** The list a cell was made for: the list of all times, or the list of one handle. */
  datatype Owner = Timeline | Of(handle: nat)

  class TemporalEntry {
    const time: Time
    var next: TemporalEntry?
    ghost const owner: Owner

    constructor (time: Time, ghost owner: Owner)
      ensures this.time == time && this.owner == owner && next == null
    {
      this.time := time;
      this.owner := owner;
      next := null;
    }
  }

  // ------------------------------------------------------- lists in the heap

  /** The cells reached from `head` are exactly `nodes`, in this order. */
  ghost predicate Chain(head: TemporalEntry?, nodes: seq<TemporalEntry>)
    reads nodes
  {
    && head == (if nodes == [] then null else nodes[0])
    && forall i {:trigger nodes[i].next} :: 0 <= i < |nodes| ==>
         nodes[i].next == if i + 1 < |nodes| then nodes[i + 1] else null
  }

  // ------------------------------------------------------- lists as values

  ghost predicate Ascending(nodes: seq<TemporalEntry>) {
    forall i, j :: 0 <= i < j < |nodes| ==> Rank(nodes[i].time) < Rank(nodes[j].time)
  }

  ghost predicate HasTime(nodes: seq<TemporalEntry>, t: Time) {
    exists n :: n in nodes && n.time == t
  }

  ghost function Times(nodes: seq<TemporalEntry>): (ts: seq<Time>)
    ensures |ts| == |nodes|
    ensures forall i :: 0 <= i < |ts| ==> ts[i] == nodes[i].time
  {
    seq(|nodes|, i requires 0 <= i < |nodes| => nodes[i].time)
  }

  /** Plain sorted insertion from the head of a list, without duplicates. */
  ghost function InsertTime(ts: seq<Time>, t: Time): seq<Time> {
    if ts == [] || Rank(t) < Rank(ts[0]) then [t] + ts
    else if ts[0] == t then ts
    else [ts[0]] + InsertTime(ts[1..], t)
  }

  /** All times but one. */
  ghost function DeleteTime(ts: seq<Time>, t: Time): seq<Time> {
    if ts == [] then []
    else if ts[0] == t then DeleteTime(ts[1..], t)
    else [ts[0]] + DeleteTime(ts[1..], t)
  }

  /** `r` is `nodes` with a cell for `t` put in at position `p`. */
  ghost predicate InsertedAt(nodes: seq<TemporalEntry>, r: seq<TemporalEntry>, p: nat, t: Time) {
    && p <= |nodes| && |r| == |nodes| + 1
    && r[..p] == nodes[..p] && r[p + 1..] == nodes[p..]
    && r[p].time == t
    && (p > 0 ==> Rank(nodes[p - 1].time) < Rank(t))
    && (p < |nodes| ==> Rank(t) < Rank(nodes[p].time))
  }

  ghost function RemoveAt(nodes: seq<TemporalEntry>, p: nat): seq<TemporalEntry>
    requires p < |nodes|
  {
    nodes[..p] + nodes[p + 1..]
  }

  lemma {:induction false} InsertTimeAt(ts: seq<Time>, p: nat, t: Time)
    requires p <= |ts|
    requires forall i :: 0 <= i < p ==> Rank(ts[i]) < Rank(t)
    requires p < |ts| ==> Rank(t) < Rank(ts[p])
    ensures InsertTime(ts, t) == ts[..p] + [t] + ts[p..]
  {
    hide Rank;
    if p == 0 {
      assert ts[..0] + [t] + ts[0..] == [t] + ts;
    } else {
      InsertTimeLater(ts, t);
      hide InsertTime;
      InsertTimeAt(ts[1..], p - 1, t);
      SpliceLater(ts, p, t);
    }
  }

  lemma InsertTimeLater(ts: seq<Time>, t: Time)
    requires ts != [] && Rank(ts[0]) < Rank(t)
    ensures InsertTime(ts, t) == [ts[0]] + InsertTime(ts[1..], t)
  {
    hide Rank;
  }

  lemma SpliceLater<T>(ts: seq<T>, p: nat, t: T)
    requires 0 < p <= |ts|
    ensures ts[..p] + [t] + ts[p..] == [ts[0]] + (ts[1..][..p - 1] + [t] + ts[1..][p - 1..])
  {
    assert ts[..p] == [ts[0]] + ts[1..][..p - 1];
    assert ts[1..][p - 1..] == ts[p..];
  }

  lemma InsertedAtAscending(nodes: seq<TemporalEntry>, r: seq<TemporalEntry>, p: nat, t: Time)
    requires Ascending(nodes) && InsertedAt(nodes, r, p, t)
    ensures Ascending(r)
  {
    hide Rank;
    forall i | 0 <= i < |r| ensures r[i] == if i < p then nodes[i] else if i == p then r[p] else nodes[i - 1] {
      if i < p {
        assert r[i] == r[..p][i];
      } else if i > p {
        assert r[i] == r[p + 1..][i - (p + 1)];
      }
    }
  }

  lemma InsertedAtIsInsertTime(nodes: seq<TemporalEntry>, r: seq<TemporalEntry>, p: nat, t: Time)
    requires Ascending(nodes) && InsertedAt(nodes, r, p, t)
    ensures Times(r) == InsertTime(Times(nodes), t)
  {
    hide Rank;
    TimesInserted(nodes, r, p, t);
    assert p > 0 ==> forall i :: 0 <= i < p ==> Rank(nodes[i].time) <= Rank(nodes[p - 1].time);
    InsertTimeAt(Times(nodes), p, t);
  }

  lemma TimesInserted(nodes: seq<TemporalEntry>, r: seq<TemporalEntry>, p: nat, t: Time)
    requires InsertedAt(nodes, r, p, t)
    ensures Times(r) == Times(nodes)[..p] + [t] + Times(nodes)[p..]
  {
    hide Rank;
    var ts := Times(nodes);
    forall i | 0 <= i < |r| ensures r[i].time == (ts[..p] + [t] + ts[p..])[i] {
      if i < p {
        assert r[i] == r[..p][i] == nodes[i];
      } else if i > p {
        assert r[i] == r[p + 1..][i - (p + 1)] == nodes[p..][i - (p + 1)];
      }
    }
  }

  // ------------------------------------------------------- operations

  /** Three-way comparison of two times. */
  function Compare(t1: Time, t2: Time): (r: int)
    ensures r < 0 <==> Rank(t1) < Rank(t2)
    ensures r == 0 <==> t1 == t2
    ensures r == 0 <==> Rank(t1) == Rank(t2)
    ensures r > 0 <==> Rank(t1) > Rank(t2)
  {
    CompareToIsRank(t1, t2);
    t1.CompareTo(t2)
  }

  method Last(list: TemporalEntry, ghost nodes: seq<TemporalEntry>) returns (r: TemporalEntry)
    requires Chain(list, nodes)
    ensures nodes != [] && r == nodes[|nodes| - 1]
  {
    hide Rank;
    r := list;
    ghost var i := 0;
    while r.next != null
      invariant i < |nodes| && r == nodes[i]
      decreases |nodes| - i
    {
      r := r.next;
      i := i + 1;
    }
  }

  /** Stops at the first time that is not smaller. */
  method Contains(list: TemporalEntry?, t: Time, ghost nodes: seq<TemporalEntry>) returns (r: bool)
    requires Chain(list, nodes) && Ascending(nodes)
    ensures r <==> HasTime(nodes, t)
  {
    hide Rank, Compare;
    var current := list;
    ghost var i := 0;
    while current != null
      invariant i <= |nodes| && current == if i < |nodes| then nodes[i] else null
      invariant forall k :: 0 <= k < i ==> Rank(nodes[k].time) < Rank(t)
      decreases |nodes| - i
    {
      var comparison := Compare(current.time, t);
      if comparison == 0 {
        assert nodes[i] in nodes;
        return true;
      } else if comparison > 0 {
        return false;
      }
      current := current.next;
      i := i + 1;
    }
    return false;
  }

  lemma AscendingDistinct(nodes: seq<TemporalEntry>)
    requires Ascending(nodes)
    ensures Distinct(nodes)
  {
    hide Rank;
  }

  /** Pointing one cell, or the head, at a cell that points to the rest inserts it. */
  lemma SplicedIn(head: TemporalEntry, nodes: seq<TemporalEntry>, x: TemporalEntry, p: nat)
    requires p <= |nodes|
    requires forall i {:trigger nodes[i].next} :: 0 <= i < |nodes| && i + 1 != p ==>
      nodes[i].next == if i + 1 < |nodes| then nodes[i + 1] else null
    requires p > 0 ==> nodes[p - 1].next == x
    requires x.next == if p < |nodes| then nodes[p] else null
    requires head == if p == 0 then x else nodes[0]
    ensures Chain(head, nodes[..p] + [x] + nodes[p..])
  {
    hide Rank;
    var r := nodes[..p] + [x] + nodes[p..];
    assert forall i :: 0 <= i < p ==> r[i] == nodes[i];
    assert forall i :: p < i < |r| ==> r[i] == nodes[i - 1];
  }

  lemma PlacedIsInserted(nodes: seq<TemporalEntry>, x: TemporalEntry, p: nat, t: Time)
    requires Ascending(nodes) && p <= |nodes| && x.time == t
    requires forall k :: 0 <= k < p ==> Rank(nodes[k].time) < Rank(t)
    requires p < |nodes| ==> Rank(t) < Rank(nodes[p].time)
    ensures InsertedAt(nodes, nodes[..p] + [x] + nodes[p..], p, t)
    ensures (nodes[..p] + [x] + nodes[p..])[p] == x
    ensures !HasTime(nodes, t)
  {
    hide Rank;
  }

  /** Sorted insertion; gives back the head of the list, the cells of the list and the position of
      the new cell. */
  method Add(sortedSet: TemporalEntry?, t: Time, ghost nodes: seq<TemporalEntry>, ghost owner: Owner)
    returns (head: TemporalEntry?, ghost r: seq<TemporalEntry>, ghost p: nat)
    requires Chain(sortedSet, nodes) && Ascending(nodes)
    modifies nodes
    ensures Chain(head, r)
    ensures HasTime(nodes, t) ==> r == nodes && head == sortedSet
    ensures !HasTime(nodes, t) ==> InsertedAt(nodes, r, p, t) && fresh(r[p]) && r[p].owner == owner
    ensures nodes != [] && Rank(nodes[0].time) <= Rank(t) ==> head == sortedSet
  {
    hide Rank, Compare;
    var current := sortedSet;
    var previous: TemporalEntry? := null;
    p := 0;
    while current != null
      invariant p <= |nodes|
      invariant current == if p < |nodes| then nodes[p] else null
      invariant previous == if p > 0 then nodes[p - 1] else null
      invariant forall k :: 0 <= k < p ==> Rank(nodes[k].time) < Rank(t)
      decreases |nodes| - p
    {
      var comparison := Compare(current.time, t);
      if comparison == 0 {
        assert nodes[p] in nodes;
        return sortedSet, nodes, p;
      }
      if comparison > 0 {
        break;
      }
      previous := current;
      current := current.next;
      p := p + 1;
    }
    var newEntry := new TemporalEntry(t, owner);
    newEntry.next := current;
    r := nodes[..p] + [newEntry] + nodes[p..];
    AscendingDistinct(nodes);
    PlacedIsInserted(nodes, newEntry, p, t);
    hide InsertedAt, HasTime, Ascending;
    if previous != null {
      previous.next := newEntry;
      head := sortedSet;
    } else {
      head := newEntry;
    }
    SplicedIn(head, nodes, newEntry, p);
  }

  /** Pointing one cell, or the head, past a cell takes that cell out. */
  lemma Unlinked(head: TemporalEntry?, nodes: seq<TemporalEntry>, p: nat)
    requires p < |nodes|
    requires forall i {:trigger nodes[i].next} :: 0 <= i < |nodes| && i != p && i + 1 != p ==>
      nodes[i].next == if i + 1 < |nodes| then nodes[i + 1] else null
    requires p > 0 ==> nodes[p - 1].next == if p + 1 < |nodes| then nodes[p + 1] else null
    requires head == if p > 0 then nodes[0] else if |nodes| > 1 then nodes[1] else null
    ensures Chain(head, RemoveAt(nodes, p))
  {
    hide Rank;
    var r := RemoveAt(nodes, p);
    assert forall i :: 0 <= i < p ==> r[i] == nodes[i];
    assert forall i :: p <= i < |r| ==> r[i] == nodes[i + 1];
  }

  /** Takes a cell out of a list. */
  method UnlinkCell(head: TemporalEntry, previousTe: TemporalEntry?, currentTe: TemporalEntry,
                    ghost nodes: seq<TemporalEntry>, ghost q: nat)
    returns (newHead: TemporalEntry?)
    requires Chain(head, nodes) && Distinct(nodes) && q < |nodes| && currentTe == nodes[q]
    requires previousTe == if q > 0 then nodes[q - 1] else null
    modifies nodes
    ensures Chain(newHead, RemoveAt(nodes, q))
  {
    hide Rank, RemoveAt;
    newHead := head;
    if previousTe != null {
      previousTe.next := currentTe.next;
    } else {
      newHead := currentTe.next;
    }
    currentTe.next := null;
    Unlinked(newHead, nodes, q);
  }

  lemma ChainDrop(head: TemporalEntry?, nodes: seq<TemporalEntry>, k: nat)
    requires Chain(head, nodes) && k <= |nodes|
    ensures Chain(if k < |nodes| then nodes[k] else null, nodes[k..])
  {
    hide Rank;
    var r := nodes[k..];
    assert forall i :: 0 <= i < |r| ==> r[i] == nodes[k + i];
  }

  /** The cells that do not hold `t`. */
  ghost function Without(nodes: seq<TemporalEntry>, t: Time): seq<TemporalEntry> {
    if nodes == [] then []
    else
      var n := |nodes| - 1;
      if nodes[n].time == t then Without(nodes[..n], t) else Without(nodes[..n], t) + [nodes[n]]
  }

  lemma {:induction false} WithoutMembers(nodes: seq<TemporalEntry>, t: Time)
    ensures forall i :: 0 <= i < |Without(nodes, t)| ==>
      Without(nodes, t)[i] in nodes && Without(nodes, t)[i].time != t
    ensures forall i :: 0 <= i < |nodes| && nodes[i].time != t ==> nodes[i] in Without(nodes, t)
    ensures |Without(nodes, t)| <= |nodes|
  {
    hide Rank;
    if nodes != [] {
      var n := |nodes| - 1;
      assert nodes == nodes[..n] + [nodes[n]];
      WithoutMembers(nodes[..n], t);
    }
  }

  lemma {:induction false} WithoutAscending(nodes: seq<TemporalEntry>, t: Time)
    requires Ascending(nodes)
    ensures Ascending(Without(nodes, t))
  {
    hide Rank;
    if nodes != [] {
      var n := |nodes| - 1;
      WithoutAscending(nodes[..n], t);
      WithoutMembers(nodes[..n], t);
      var w := Without(nodes[..n], t);
      forall i | 0 <= i < |w| ensures Rank(w[i].time) < Rank(nodes[n].time) {
        var j :| 0 <= j < n && nodes[..n][j] == w[i];
      }
    }
  }

  lemma {:induction false} DeleteTimeAppend(ts: seq<Time>, u: Time, t: Time)
    ensures DeleteTime(ts + [u], t) == DeleteTime(ts, t) + (if u == t then [] else [u])
  {
    hide Rank;
    if ts != [] {
      assert (ts + [u])[1..] == ts[1..] + [u];
      DeleteTimeAppend(ts[1..], u, t);
    }
  }

  lemma {:induction false} WithoutIsDeleteTime(nodes: seq<TemporalEntry>, t: Time)
    ensures Times(Without(nodes, t)) == DeleteTime(Times(nodes), t)
  {
    hide Rank;
    if nodes != [] {
      var n := |nodes| - 1;
      WithoutIsDeleteTime(nodes[..n], t);
      DeleteTimeAppend(Times(nodes[..n]), nodes[n].time, t);
      assert Times(nodes) == Times(nodes[..n]) + [nodes[n].time];
      var w := Without(nodes[..n], t);
      assert Times(w + [nodes[n]]) == Times(w) + [nodes[n].time];
    }
  }

  ghost predicate Distinct(nodes: seq<TemporalEntry>) {
    forall i, j :: 0 <= i < j < |nodes| ==> nodes[i] != nodes[j]
  }

  lemma RemoveAtFacts(c: seq<TemporalEntry>, p: nat)
    requires p < |c| && Distinct(c)
    ensures Distinct(RemoveAt(c, p))
    ensures RemoveAt(c, p)[..p] == c[..p] && RemoveAt(c, p)[p..] == c[p + 1..]
  {
  }

  lemma WithoutNext(nodes: seq<TemporalEntry>, k: nat, t: Time)
    requires k < |nodes|
    ensures Without(nodes[..k + 1], t) == Without(nodes[..k], t) + if nodes[k].time == t then [] else [nodes[k]]
  {
    hide Rank;
    assert nodes[..k + 1][..k] == nodes[..k];
  }

  /** Takes out every cell that holds `t`: first at the head, then behind a cell that stays. */
  method Remove(list: TemporalEntry?, t: Time, ghost nodes: seq<TemporalEntry>) returns (head: TemporalEntry?)
    requires Chain(list, nodes) && Distinct(nodes)
    modifies nodes
    ensures Chain(head, Without(nodes, t))
  {
    hide Rank, Without;
    var set_ := list;
    ghost var k := 0;
    assert Without(nodes[..0], t) == [] by { WithoutMembers(nodes[..0], t); }
    while set_ != null && set_.time == t
      invariant k <= |nodes| && set_ == if k < |nodes| then nodes[k] else null
      invariant Without(nodes[..k], t) == []
      invariant forall i {:trigger nodes[i].next} :: k <= i < |nodes| ==>
        nodes[i].next == if i + 1 < |nodes| then nodes[i + 1] else null
      decreases |nodes| - k
    {
      var buffer := set_;
      set_ := set_.next;
      buffer.next := null;
      WithoutNext(nodes, k, t);
      k := k + 1;
    }
    if set_ == null {
      assert nodes[..k] == nodes;
      return null;
    }
    WithoutNext(nodes, k, t);
    head := set_;
    RemoveBehind(set_, t, nodes, k + 1);
  }

  /** The second loop of `Remove`: `set_` stays, and so does everything before it. */
  method RemoveBehind(set0: TemporalEntry, t: Time, ghost nodes: seq<TemporalEntry>, ghost k0: nat)
    requires 0 < k0 <= |nodes| && Distinct(nodes)
    requires nodes[k0 - 1] == set0 && Without(nodes[..k0], t) == [set0]
    requires Chain(set0, nodes[k0 - 1..])
    modifies nodes
    ensures Chain(set0, Without(nodes, t))
  {
    hide Rank, Without;
    var set_ := set0;
    ghost var k := k0;
    ghost var c := nodes[k0 - 1..];
    ghost var p := 1;
    while set_.next != null
      invariant 0 < k <= |nodes| && 0 < p <= |c|
      invariant Distinct(c) && Chain(set0, c)
      invariant c[..p] == Without(nodes[..k], t) && c[p..] == nodes[k..]
      invariant forall x :: x in c ==> x in nodes
      invariant set_ == c[p - 1]
      decreases |nodes| - k
    {
      assert c[p] == c[p..][0] == nodes[k];
      WithoutNext(nodes, k, t);
      if set_.next.time == t {
        RemoveAtFacts(c, p);
        assert c[p - 1] in c && c[p] in c;
        var buffer := set_.next;
        set_.next := set_.next.next;
        buffer.next := null;
        Unlinked(set0, c, p);
        c := RemoveAt(c, p);
      } else {
        set_ := set_.next;
        p := p + 1;
      }
      k := k + 1;
    }
    assert nodes[..|nodes|] == nodes;
    assert c[..p] == c;
  }

  // ------------------------------------------------------- entering a list in the middle

  lemma PrefixChain(head: TemporalEntry?, nodes: seq<TemporalEntry>, k: nat, r: seq<TemporalEntry>)
    requires k < |nodes| && head == nodes[0]
    requires forall i {:trigger nodes[i].next} :: 0 <= i < k ==> nodes[i].next == nodes[i + 1]
    requires Chain(nodes[k], r)
    ensures Chain(head, nodes[..k] + r)
  {
    hide Rank;
    var c := nodes[..k] + r;
    assert forall i :: 0 <= i < k ==> c[i] == nodes[i];
    assert forall i :: k <= i < |c| ==> c[i] == r[i - k];
    assert c[k] == nodes[k];
  }

  /** Inserting behind a cell that does not come after `t` is inserting into the whole list. */
  lemma PrefixInserted(nodes: seq<TemporalEntry>, k: nat, r: seq<TemporalEntry>, q: nat, t: Time)
    requires Ascending(nodes) && k < |nodes|
    requires InsertedAt(nodes[k..], r, q, t) && q > 0
    ensures InsertedAt(nodes, nodes[..k] + r, k + q, t)
    ensures (nodes[..k] + r)[k + q] == r[q]
  {
    hide Rank;
    var c := nodes[..k] + r;
    assert c[k + q] == r[q];
    assert c[k + q + 1..] == r[q + 1..] == nodes[k..][q..] == nodes[k + q..];
    assert c[..k + q] == nodes[..k] + r[..q] == nodes[..k] + nodes[k..][..q] == nodes[..k + q];
  }

  lemma SuffixHasTime(nodes: seq<TemporalEntry>, k: nat, t: Time)
    requires Ascending(nodes) && k < |nodes| && Rank(nodes[k].time) <= Rank(t)
    ensures Ascending(nodes[k..])
    ensures HasTime(nodes[k..], t) <==> HasTime(nodes, t)
  {
    hide Rank;
    if HasTime(nodes, t) {
      var i :| 0 <= i < |nodes| && nodes[i].time == t;
      assert i >= k;
      assert nodes[k..][i - k] == nodes[i];
    }
  }
}
