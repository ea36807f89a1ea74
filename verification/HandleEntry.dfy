/** Linked lists of handles, and the intersection of many of them
    (opencog/atomspace/HandleEntry.cc). */
module HandleEntries {
  import opened Handles

  class HandleEntry {
    const handle: Handle
    var next: HandleEntry?

    constructor (handle: Handle)
      ensures this.handle == handle && next == null
    {
      this.handle := handle;
      next := null;
    }
  }

  // ------------------------------------------------------- lists in the heap

  /** The cells reached from `head` are exactly `nodes`, in this order. */
  ghost predicate Chain(head: HandleEntry?, nodes: seq<HandleEntry>)
    reads nodes
  {
    && head == (if nodes == [] then null else nodes[0])
    && forall i {:trigger nodes[i].next} :: 0 <= i < |nodes| ==>
         nodes[i].next == if i + 1 < |nodes| then nodes[i + 1] else null
  }

  ghost predicate DistinctCells(nodes: seq<HandleEntry>) {
    forall i, j :: 0 <= i < j < |nodes| ==> nodes[i] != nodes[j]
  }

  ghost function HandlesOf(nodes: seq<HandleEntry>): (s: seq<Handle>)
    ensures |s| == |nodes| && forall i :: 0 <= i < |s| ==> s[i] == nodes[i].handle
  {
    seq(|nodes|, i requires 0 <= i < |nodes| => nodes[i].handle)
  }

  /** The handles that pass a test, in their order. */
  function Filtered(s: seq<Handle>, keep: Handle -> bool): seq<Handle> {
    if s == [] then []
    else Filtered(s[..|s| - 1], keep) + if keep(s[|s| - 1]) then [s[|s| - 1]] else []
  }

  lemma {:induction false} FilteredCount(s: seq<Handle>, keep: Handle -> bool)
    ensures forall h :: Count(Filtered(s, keep), h) == if keep(h) then Count(s, h) else 0
    ensures forall h :: h in Filtered(s, keep) <==> h in s && keep(h)
  {
    if s != [] {
      var n := |s| - 1;
      FilteredCount(s[..n], keep);
      assert s == s[..n] + [s[n]];
    }
    forall h ensures h in Filtered(s, keep) <==> h in s && keep(h) {
      assert h in s <==> Count(s, h) > 0;
      assert h in Filtered(s, keep) <==> Count(Filtered(s, keep), h) > 0;
    }
  }

  lemma {:induction false} FilteredSorted(s: seq<Handle>, keep: Handle -> bool)
    requires Sorted(s)
    ensures Sorted(Filtered(s, keep))
  {
    if s != [] {
      var n := |s| - 1;
      FilteredSorted(s[..n], keep);
      FilteredCount(s[..n], keep);
      var r := Filtered(s[..n], keep);
      forall k | 0 <= k < |r| ensures r[k] <= s[n] {
        assert r[k] in r;
        assert r[k] in s[..n];
      }
    }
  }

  ghost function KeptCells(nodes: seq<HandleEntry>, keep: Handle -> bool): seq<HandleEntry> {
    if nodes == [] then []
    else
      var n := |nodes| - 1;
      KeptCells(nodes[..n], keep) + if keep(nodes[n].handle) then [nodes[n]] else []
  }

  lemma {:induction false} KeptHandles(nodes: seq<HandleEntry>, keep: Handle -> bool)
    ensures HandlesOf(KeptCells(nodes, keep)) == Filtered(HandlesOf(nodes), keep)
    ensures forall c :: c in KeptCells(nodes, keep) ==> c in nodes
  {
    if nodes != [] {
      var n := |nodes| - 1;
      KeptHandles(nodes[..n], keep);
      assert HandlesOf(nodes)[..n] == HandlesOf(nodes[..n]);
    }
  }

  lemma KeptNext(nodes: seq<HandleEntry>, k: nat, keep: Handle -> bool)
    requires k < |nodes|
    ensures KeptCells(nodes[..k + 1], keep) ==
      KeptCells(nodes[..k], keep) + if keep(nodes[k].handle) then [nodes[k]] else []
  {
    assert nodes[..k + 1][..k] == nodes[..k];
  }

  lemma Unlinked(head: HandleEntry, c: seq<HandleEntry>, p: nat)
    requires 0 < p < |c| && DistinctCells(c) && c[0] == head
    requires forall i {:trigger c[i].next} :: 0 <= i < |c| && i != p - 1 && i != p ==>
      c[i].next == if i + 1 < |c| then c[i + 1] else null
    requires c[p - 1].next == if p + 1 < |c| then c[p + 1] else null
    ensures Chain(head, c[..p] + c[p + 1..])
  {
    var r := c[..p] + c[p + 1..];
    assert forall i :: 0 <= i < p ==> r[i] == c[i];
    assert forall i :: p <= i < |r| ==> r[i] == c[i + 1];
  }

  /** Drops the cells whose handles do not pass the test: first at the head, then behind a cell that
      stays. */
  method FilterSet(list: HandleEntry?, keep: Handle -> bool, ghost nodes: seq<HandleEntry>)
    returns (head: HandleEntry?, ghost rest: seq<HandleEntry>)
    requires Chain(list, nodes) && DistinctCells(nodes)
    modifies nodes
    ensures Chain(head, rest) && rest == KeptCells(nodes, keep)
    ensures HandlesOf(rest) == Filtered(HandlesOf(nodes), keep)
  {
    hide KeptCells, Filtered;
    KeptHandles(nodes, keep);
    rest := KeptCells(nodes, keep);
    var current := list;
    ghost var k := 0;
    NothingKept(keep);
    assert nodes[..0] == [];
    while current != null && !keep(current.handle)
      invariant k <= |nodes| && current == if k < |nodes| then nodes[k] else null
      invariant KeptCells(nodes[..k], keep) == []
      invariant forall i {:trigger nodes[i].next} :: k <= i < |nodes| ==>
        nodes[i].next == if i + 1 < |nodes| then nodes[i + 1] else null
      decreases |nodes| - k
    {
      var buffer := current;
      current := current.next;
      buffer.next := null;
      KeptNext(nodes, k, keep);
      k := k + 1;
    }
    if current == null {
      assert nodes[..k] == nodes;
      return null, rest;
    }
    KeptNext(nodes, k, keep);
    head := current;
    FilterBehind(current, keep, nodes, k + 1);
  }

  lemma NothingKept(keep: Handle -> bool)
    ensures KeptCells([], keep) == []
  {
  }

  method FilterBehind(first: HandleEntry, keep: Handle -> bool, ghost nodes: seq<HandleEntry>, ghost k0: nat)
    requires 0 < k0 <= |nodes| && DistinctCells(nodes)
    requires nodes[k0 - 1] == first && KeptCells(nodes[..k0], keep) == [first]
    requires Chain(first, nodes[k0 - 1..])
    modifies nodes
    ensures Chain(first, KeptCells(nodes, keep))
  {
    hide KeptCells;
    var current := first;
    ghost var k := k0;
    ghost var c := nodes[k0 - 1..];
    ghost var p := 1;
    while current.next != null
      invariant 0 < k <= |nodes| && 0 < p <= |c|
      invariant DistinctCells(c) && Chain(first, c)
      invariant c[..p] == KeptCells(nodes[..k], keep) && c[p..] == nodes[k..]
      invariant forall x :: x in c ==> x in nodes
      invariant current == c[p - 1]
      decreases |nodes| - k
    {
      assert c[p] == c[p..][0] == nodes[k];
      KeptNext(nodes, k, keep);
      if !keep(current.next.handle) {
        assert c[p - 1] in c && c[p] in c;
        var buffer := current.next;
        current.next := current.next.next;
        buffer.next := null;
        Unlinked(first, c, p);
        ghost var r := c[..p] + c[p + 1..];
        assert r[..p] == c[..p] && r[p..] == c[p + 1..];
        c := r;
      } else {
        current := current.next;
        p := p + 1;
      }
      k := k + 1;
    }
    assert nodes[..|nodes|] == nodes;
    assert c[..p] == c;
  }

  /** Hangs the second list behind the last cell of the first. */
  method Concatenation(set1: HandleEntry?, set2: HandleEntry?, ghost nodes1: seq<HandleEntry>,
                       ghost nodes2: seq<HandleEntry>)
    returns (head: HandleEntry?)
    requires Chain(set1, nodes1) && Chain(set2, nodes2) && DistinctCells(nodes1 + nodes2)
    modifies nodes1
    ensures Chain(head, nodes1 + nodes2)
  {
    if set1 == null {
      assert nodes1 + nodes2 == nodes2;
      return set2;
    }
    if set2 != null {
      var current := set1;
      ghost var k := 0;
      while current.next != null
        invariant k < |nodes1| && current == nodes1[k]
        decreases |nodes1| - k
      {
        current := current.next;
        k := k + 1;
      }
      ghost var c := nodes1 + nodes2;
      assert forall i :: 0 <= i < |nodes1| ==> c[i] == nodes1[i];
      assert forall i :: |nodes1| <= i < |c| ==> c[i] == nodes2[i - |nodes1|];
      assert c[|nodes1| - 1] == current;
      current.next := set2;
    } else {
      assert nodes1 + nodes2 == nodes1;
    }
    return set1;
  }
}
