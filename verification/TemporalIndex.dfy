/** What the array of pointers into the sorted list of all times is allowed to look like
    (opencog/atomspace/TemporalTable.cc): it may lag behind the list, and it may repeat cells. */
module TemporalIndex {
  import opened Temporals
  import opened TemporalEntries

  const PENDING_UPDATE_RATE_THRESHOLD: nat := 8

  ghost function Cells(nodes: seq<TemporalEntry>): set<TemporalEntry> {
    set n | n in nodes
  }

  /** Cells of the list that no slot of the array points to. */
  ghost function Missing(timeline: seq<TemporalEntry>, idx: seq<TemporalEntry>): set<TemporalEntry> {
    Cells(timeline) - Cells(idx)
  }

  ghost predicate NonDecreasing(idx: seq<TemporalEntry>) {
    forall i, j :: 0 <= i < j < |idx| ==> Rank(idx[i].time) <= Rank(idx[j].time)
  }

  ghost predicate PointsInto(idx: seq<TemporalEntry>, timeline: seq<TemporalEntry>) {
    forall k :: 0 <= k < |idx| ==> idx[k] in timeline
  }

  lemma PointedTo(idx: seq<TemporalEntry>, timeline: seq<TemporalEntry>, e: TemporalEntry)
    requires PointsInto(idx, timeline) && e in idx
    ensures e in timeline
  {
  }

  /** Every slot points to a live cell, in order; at most `pending` cells are missing; and the
      pending updates are few compared with the cells. */
  ghost predicate IndexOk(timeline: seq<TemporalEntry>, idx: seq<TemporalEntry>, pending: int) {
    && PointsInto(idx, timeline)
    && NonDecreasing(idx)
    && |Missing(timeline, idx)| <= pending
    && 8 * pending <= |timeline|
  }

  lemma {:induction false} CellsSize(nodes: seq<TemporalEntry>)
    requires Distinct(nodes)
    ensures |Cells(nodes)| == |nodes|
  {
    hide Rank;
    if nodes != [] {
      var n := |nodes| - 1;
      CellsSize(nodes[..n]);
      assert Cells(nodes) == Cells(nodes[..n]) + {nodes[n]};
      assert nodes[n] !in nodes[..n];
    }
  }

  lemma {:induction false} SubsetSize<T>(a: set<T>, b: set<T>)
    requires a <= b
    ensures |a| <= |b|
  {
    hide Rank;
    if a != {} {
      var x :| x in a;
      SubsetSize(a - {x}, b - {x});
    }
  }

  /** The binary search never meets an empty array while there are times to search. */
  lemma IndexEmptyOnlyWithList(timeline: seq<TemporalEntry>, idx: seq<TemporalEntry>, pending: int)
    requires IndexOk(timeline, idx, pending) && Distinct(timeline)
    ensures idx == [] <==> timeline == []
  {
    hide Rank;
    if idx == [] {
      assert Missing(timeline, idx) == Cells(timeline);
      CellsSize(timeline);
    } else {
      assert idx[0] in timeline;
    }
  }

  /** A rebuilt array misses nothing. */
  lemma RebuiltIndexOk(timeline: seq<TemporalEntry>)
    requires Ascending(timeline)
    ensures IndexOk(timeline, timeline, 0)
  {
    hide Rank;
    assert Missing(timeline, timeline) == {};
  }

  lemma InsertedCells(nodes: seq<TemporalEntry>, r: seq<TemporalEntry>, p: nat, t: Time)
    requires InsertedAt(nodes, r, p, t)
    ensures Cells(r) == Cells(nodes) + {r[p]}
    ensures forall k :: 0 <= k < |nodes| ==> nodes[k] in r
  {
    hide Rank;
    assert r == nodes[..p] + [r[p]] + nodes[p..];
    forall k | 0 <= k < |nodes| ensures nodes[k] in r {
      if k < p {
        assert r[k] == nodes[k];
      } else {
        assert r[k + 1] == nodes[k];
      }
    }
  }

  /** A new cell that is not entered into the array counts as one more pending update. */
  lemma PendingInsert(timeline: seq<TemporalEntry>, r: seq<TemporalEntry>, p: nat, t: Time,
                      idx: seq<TemporalEntry>, pending: int)
    requires IndexOk(timeline, idx, pending) && InsertedAt(timeline, r, p, t)
    requires |r| / (pending + 1) >= PENDING_UPDATE_RATE_THRESHOLD
    ensures IndexOk(r, idx, pending + 1)
  {
    hide Rank;
    InsertedCells(timeline, r, p, t);
    assert r != [];
    hide InsertedAt;
    SubsetSize(Missing(r, idx), Missing(timeline, idx) + {r[p]});
    forall k | 0 <= k < |idx| ensures idx[k] in r {
      assert idx[k] in timeline;
    }
    RateBound(|r|, pending + 1);
  }

  lemma AppendNonDecreasing(idx: seq<TemporalEntry>, x: TemporalEntry)
    requires NonDecreasing(idx) && (idx != [] ==> Rank(idx[|idx| - 1].time) <= Rank(x.time))
    ensures NonDecreasing(idx + [x])
  {
    hide Rank;
    forall k | 0 <= k < |idx| ensures Rank(idx[k].time) <= Rank(x.time) {
    }
  }

  /** A new cell behind every slot goes to the end of the array. */
  lemma AppendedInsert(timeline: seq<TemporalEntry>, r: seq<TemporalEntry>, p: nat, t: Time,
                       idx: seq<TemporalEntry>, pending: int)
    requires IndexOk(timeline, idx, pending) && InsertedAt(timeline, r, p, t)
    requires idx != [] && Rank(idx[|idx| - 1].time) < Rank(t)
    ensures IndexOk(r, idx + [r[p]], pending)
  {
    hide Rank;
    AppendNonDecreasing(idx, r[p]);
    InsertedCells(timeline, r, p, t);
    hide InsertedAt, NonDecreasing;
    var idx' := idx + [r[p]];
    assert Missing(r, idx') <= Missing(timeline, idx);
    SubsetSize(Missing(r, idx'), Missing(timeline, idx));
    forall k | 0 <= k < |idx'| ensures idx'[k] in r {
      if k < |idx| {
        assert idx[k] in timeline;
      }
    }
  }

  lemma RateBound(n: nat, pending: nat)
    requires pending > 0 && n / pending >= PENDING_UPDATE_RATE_THRESHOLD
    ensures 8 * pending <= n
  {
    hide Rank;
    assert n == pending * (n / pending) + n % pending;
    assert pending * (n / pending) >= pending * 8;
  }

  /** `idx'` no longer points to `e`, and still points to everything else it pointed to. */
  ghost predicate Forgets(idx: seq<TemporalEntry>, idx': seq<TemporalEntry>, e: TemporalEntry) {
    && e !in idx'
    && forall k :: 0 <= k < |idx| && idx[k] != e ==> idx[k] in idx'
  }

  /** Taking a forgotten cell out of the list leaves no more cells missing than before. */
  lemma RemovedMissing(timeline: seq<TemporalEntry>, p: nat, idx: seq<TemporalEntry>, idx': seq<TemporalEntry>)
    requires Distinct(timeline) && p < |timeline| && Forgets(idx, idx', timeline[p])
    requires PointsInto(idx', timeline)
    ensures PointsInto(idx', RemoveAt(timeline, p))
    ensures |Missing(RemoveAt(timeline, p), idx')| <= |Missing(timeline, idx)|
  {
    hide Rank;
    var r := RemoveAt(timeline, p);
    RemovedCells(timeline, p);
    forall k | 0 <= k < |idx'| ensures idx'[k] in r {
      assert idx'[k] in timeline && idx'[k] in idx';
    }
    assert Missing(r, idx') <= Missing(timeline, idx);
    SubsetSize(Missing(r, idx'), Missing(timeline, idx));
  }

  lemma RemovedCells(timeline: seq<TemporalEntry>, p: nat)
    requires Distinct(timeline) && p < |timeline|
    ensures forall i :: 0 <= i < |timeline| && i != p ==> timeline[i] in RemoveAt(timeline, p)
    ensures forall i :: 0 <= i < |RemoveAt(timeline, p)| ==>
      RemoveAt(timeline, p)[i] in timeline && RemoveAt(timeline, p)[i] != timeline[p]
    ensures Cells(RemoveAt(timeline, p)) == Cells(timeline) - {timeline[p]}
  {
    hide Rank;
    var r := RemoveAt(timeline, p);
    forall i | 0 <= i < |timeline| && i != p ensures timeline[i] in r {
      if i < p {
        assert r[i] == timeline[i];
      } else {
        assert r[i - 1] == timeline[i];
      }
    }
  }

  /** The array with every pointer to `e` turned into a pointer to `next`. */
  ghost function Replaced(idx: seq<TemporalEntry>, e: TemporalEntry, next: TemporalEntry): (r: seq<TemporalEntry>)
    ensures |r| == |idx|
  {
    seq(|idx|, k requires 0 <= k < |idx| => if idx[k] == e then next else idx[k])
  }

  /** Pointing to the successor instead keeps the array in order. */
  lemma ReplacedOk(timeline: seq<TemporalEntry>, p: nat, idx: seq<TemporalEntry>)
    requires Ascending(timeline) && p + 1 < |timeline|
    requires PointsInto(idx, timeline) && NonDecreasing(idx)
    ensures var r := Replaced(idx, timeline[p], timeline[p + 1]);
      PointsInto(r, timeline) && NonDecreasing(r) && Forgets(idx, r, timeline[p])
  {
    hide Rank;
    var e, next := timeline[p], timeline[p + 1];
    var r := Replaced(idx, e, next);
    assert next in timeline;
    assert Rank(e.time) < Rank(next.time);
    forall i, j | 0 <= i < j < |r| ensures Rank(r[i].time) <= Rank(r[j].time) {
      assert Rank(idx[i].time) <= Rank(idx[j].time);
      assert idx[j] in timeline;
      var k :| 0 <= k < |timeline| && timeline[k] == idx[j];
      assert k > p ==> Rank(timeline[p + 1].time) <= Rank(timeline[k].time);
      assert k < p ==> Rank(timeline[k].time) < Rank(e.time);
    }
    forall k | 0 <= k < |idx| && idx[k] != e ensures idx[k] in r {
      assert r[k] == idx[k];
    }
  }

  /** Dropping the slots behind position `pos`, all of which point to the last cell. */
  lemma CutOk(timeline: seq<TemporalEntry>, idx: seq<TemporalEntry>, pos: int)
    requires timeline != [] && PointsInto(idx, timeline) && NonDecreasing(idx)
    requires -1 <= pos < |idx|
    requires forall k :: pos < k < |idx| ==> idx[k] == timeline[|timeline| - 1]
    requires forall k :: 0 <= k <= pos ==> idx[k] != timeline[|timeline| - 1]
    ensures var r := idx[..pos + 1];
      PointsInto(r, timeline) && NonDecreasing(r) && Forgets(idx, r, timeline[|timeline| - 1])
  {
    hide Rank;
    var r := idx[..pos + 1];
    forall k | 0 <= k < |idx| && idx[k] != timeline[|timeline| - 1] ensures idx[k] in r {
      assert r[k] == idx[k];
    }
  }

  /** A cell that leaves the list counts as one more pending update. */
  lemma PendingRemove(timeline: seq<TemporalEntry>, p: nat, idx: seq<TemporalEntry>,
                      idx': seq<TemporalEntry>, pending: int)
    requires IndexOk(timeline, idx, pending) && Distinct(timeline) && p < |timeline|
    requires Forgets(idx, idx', timeline[p]) && PointsInto(idx', timeline) && NonDecreasing(idx')
    requires pending + 1 > 0 && (|timeline| - 1) / (pending + 1) >= PENDING_UPDATE_RATE_THRESHOLD
    ensures IndexOk(RemoveAt(timeline, p), idx', pending + 1)
  {
    hide Rank, NonDecreasing, Forgets, Missing, Distinct, PointsInto;
    RemovedMissing(timeline, p, idx, idx');
    RateBound(|timeline| - 1, pending + 1);
  }

  lemma RemoveAtAscending(timeline: seq<TemporalEntry>, p: nat)
    requires Ascending(timeline) && p < |timeline|
    ensures Ascending(RemoveAt(timeline, p))
    ensures !HasTime(RemoveAt(timeline, p), timeline[p].time)
  {
    hide Rank;
  }
}
