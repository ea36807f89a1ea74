/** The table of (handle, time) pairs (opencog/atomspace/TemporalTable.cc). */
module TemporalTables {
  import opened Wrappers
  import opened Temporals
  import opened TemporalEntries
  import opened TemporalIndex

  import opened Handles
  import opened TemporalRelation
  import opened TemporalCriteria
  import opened TemporalScan
  import opened TemporalResults
  import opened TemporalSteps
  import opened TemporalRemovals

  const INITIAL_INDEX_TABLE_SIZE: nat := 1

  class TemporalTable {
    var handleMap: map<Handle, TemporalEntry>
    var tailHandleMap: map<Handle, TemporalEntry>
    var temporalMap: map<Time, set<Handle>>
    var sortedTemporalList: TemporalEntry?
    var temporalIndexTable: array<TemporalEntry?>
    var indexTableSize: int
    var indexTableCount: int
    var pendingUpdateCount: int

    // The live cells of the sorted list of all times, in order.
    ghost var timeline: seq<TemporalEntry>
    // The live cells of the sorted list of each handle.
    ghost var lists: map<Handle, seq<TemporalEntry>>
    // The cells that the lists of the handles have been made of.
    ghost var cells: set<TemporalEntry>
    // What the used slots of the index table point to.
    ghost var idx: seq<TemporalEntry>

    ghost predicate TimelineHeap()
      reads this`sortedTemporalList, this`timeline, timeline
    {
      && Chain(sortedTemporalList, timeline)
      && Ascending(timeline)
      && forall k :: 0 <= k < |timeline| ==> timeline[k].owner == Timeline
    }

    ghost predicate IndexHeap()
      reads this`temporalIndexTable, this`indexTableSize, this`indexTableCount, this`idx, temporalIndexTable
    {
      && temporalIndexTable.Length == indexTableSize
      && indexTableCount == |idx| <= indexTableSize
      && forall k :: 0 <= k < |idx| ==> temporalIndexTable[k] == idx[k]
    }

    // ------------------------------------------------------- the index table

    /** Binary search over the used slots. It reads a slot before it compares the limits, so it must
        not be called on an empty table. */
    method GetTemporalIndexTablePos(t: Time) returns (pos: int)
      requires IndexHeap() && NonDecreasing(idx)
      requires indexTableCount > 0
      ensures -1 <= pos < |idx|
      ensures (0 <= pos && idx[pos].time == t)
        || ((forall k :: 0 <= k <= pos ==> Rank(idx[k].time) < Rank(t))
            && (forall k :: pos < k < |idx| ==> Rank(idx[k].time) > Rank(t)))
    {
      hide Rank, Compare;
      var low, up := 0, indexTableCount - 1;
      while true
        invariant 0 <= low <= up < |idx|
        invariant forall k :: 0 <= k < low ==> Rank(idx[k].time) < Rank(t)
        invariant forall k :: up < k < |idx| ==> Rank(idx[k].time) > Rank(t)
        decreases up - low
      {
        pos := (up + low) / 2;
        var compare := Compare(temporalIndexTable[pos].time, t);
        if compare > 0 {
          up := pos - 1;
        } else if compare < 0 {
          low := pos + 1;
        } else {
          return;
        }
        if !(low <= up) {
          return up;
        }
      }
    }

    /** A cell that the sorted position of `t` does not precede, or null. */
    method GetPreviousTemporalEntry(t: Time) returns (e: TemporalEntry?)
      requires IndexHeap() && NonDecreasing(idx)
      requires indexTableCount > 0
      ensures e != null ==> e in idx && Rank(e.time) <= Rank(t)
      ensures e == null ==> Rank(idx[0].time) >= Rank(t)
    {
      hide Rank, Compare;
      var pos := GetTemporalIndexTablePos(t);
      if pos >= 0 && Compare(temporalIndexTable[pos].time, t) == 0 {
        pos := pos - 1;
      }
      if pos < 0 {
        return null;
      } else {
        return temporalIndexTable[pos];
      }
    }

    /** Copies the list into the table, which is reallocated when it is too small or far too large. */
    method UpdateIndexTable(numEntries: nat)
      requires TimelineHeap() && temporalIndexTable.Length == indexTableSize
      requires numEntries == |timeline|
      modifies this`temporalIndexTable, this`indexTableSize, this`indexTableCount,
        this`pendingUpdateCount, this`idx, temporalIndexTable
      ensures IndexHeap() && idx == timeline && pendingUpdateCount == 0
      ensures IndexOk(timeline, idx, pendingUpdateCount)
      ensures temporalIndexTable == old(temporalIndexTable) || fresh(temporalIndexTable)
    {
      hide Rank, IndexOk, Ascending;
      if numEntries > indexTableSize || numEntries < indexTableSize / 4 {
        indexTableSize := numEntries * 2;
        temporalIndexTable := new TemporalEntry?[indexTableSize];
      }
      var table := temporalIndexTable;
      var current := sortedTemporalList;
      var i := 0;
      while current != null && i < numEntries
        invariant 0 <= i <= |timeline|
        invariant current == if i < |timeline| then timeline[i] else null
        invariant forall k :: 0 <= k < i ==> table[k] == timeline[k]
        modifies table
        decreases |timeline| - i
      {
        temporalIndexTable[i] := current;
        i := i + 1;
        current := current.next;
      }
      indexTableCount := i;
      pendingUpdateCount := 0;
      idx := timeline;
      RebuiltIndexOk(timeline);
    }
  
    // ------------------------------------------------------- the sorted list of all times

    /** Enters `t` into the sorted list, from the cell the index table proposes if there is one.
        Either way the list changes as a plain insertion from its head would change it. */
    method AddToTimeline(t: Time) returns (previousEntry: TemporalEntry?, ghost p: nat)
      requires TimelineHeap() && IndexHeap() && PointsInto(idx, timeline) && NonDecreasing(idx)
      modifies this`sortedTemporalList, this`timeline, timeline
      ensures TimelineHeap()
      ensures HasTime(old(timeline), t) ==> timeline == old(timeline)
      ensures !HasTime(old(timeline), t) ==> InsertedAt(old(timeline), timeline, p, t) && fresh(timeline[p])
      ensures previousEntry == null <==> idx == []
      ensures previousEntry != null ==> previousEntry in timeline && Rank(previousEntry.time) <= Rank(t)
    {
      hide *;
      IndexCount();
      p := 0;
      previousEntry := null;
      if indexTableCount > 0 {
        previousEntry := GetPreviousTemporalEntry(t);
        if previousEntry == null {
          p := AddFromHead(t);
          TimelineParts();
          previousEntry := sortedTemporalList;
          assert previousEntry == timeline[0];
        } else {
          PointedTo(idx, timeline, previousEntry);
          p := AddBehind(previousEntry, t);
        }
      } else {
        p := AddFromHead(t);
      }
    }

    lemma IndexCount()
      requires IndexHeap()
      ensures indexTableCount == |idx|
    {
    }

    method AddFromHead(t: Time) returns (ghost p: nat)
      requires TimelineHeap()
      modifies this`sortedTemporalList, this`timeline, timeline
      ensures TimelineHeap()
      ensures HasTime(old(timeline), t) ==> timeline == old(timeline)
      ensures !HasTime(old(timeline), t) ==> InsertedAt(old(timeline), timeline, p, t) && fresh(timeline[p])
      ensures timeline != [] && Rank(timeline[0].time) <= Rank(t)
    {
      hide Rank;
      ghost var nodes := timeline;
      sortedTemporalList, timeline, p := TemporalEntries.Add(sortedTemporalList, t, nodes, Timeline);
      if HasTime(nodes, t) {
        HeadIsFirst(nodes, t);
      } else {
        InsertedAtAscending(nodes, timeline, p, t);
        InsertedOwners(nodes, timeline, p, t, Timeline);
        InsertedHead(nodes, timeline, p, t);
      }
    }

    method AddBehind(entry: TemporalEntry, t: Time) returns (ghost p: nat)
      requires TimelineHeap() && entry in timeline && Rank(entry.time) <= Rank(t)
      modifies this`timeline, timeline
      ensures TimelineHeap()
      ensures HasTime(old(timeline), t) ==> timeline == old(timeline)
      ensures !HasTime(old(timeline), t) ==> InsertedAt(old(timeline), timeline, p, t) && fresh(timeline[p])
      ensures entry in timeline
    {
      hide *;
      TimelineParts();
      ghost var nodes := timeline;
      ghost var k :| 0 <= k < |nodes| && nodes[k] == entry;
      timeline, p := AddFrom(sortedTemporalList, entry, t, nodes, k, Timeline);
      TimelineWhole();
    }

    /** After a new time entered the list: either the new cell goes to the end of the index table,
        or one more update is pending, and too many pending updates rebuild the table. */
    method NoteNewTime(previousEntry: TemporalEntry?, t: Time, numTemporalEntries: nat,
                       ghost before: seq<TemporalEntry>, ghost p: nat)
      requires TimelineHeap() && IndexHeap()
      requires InsertedAt(before, timeline, p, t) && IndexOk(before, idx, pendingUpdateCount)
      requires previousEntry == null <==> idx == []
      requires previousEntry != null ==> previousEntry in timeline && Rank(previousEntry.time) <= Rank(t)
      requires numTemporalEntries == |timeline|
      modifies this`temporalIndexTable, this`indexTableSize, this`indexTableCount,
        this`pendingUpdateCount, this`idx, temporalIndexTable
      ensures IndexHeap() && IndexOk(timeline, idx, pendingUpdateCount)
      ensures temporalIndexTable == old(temporalIndexTable) || fresh(temporalIndexTable)
    {
      hide Rank, Compare, InsertedAt, IndexOk, Ascending;
      if previousEntry != null && indexTableCount > 0 && indexTableCount < indexTableSize
         && Compare(t, temporalIndexTable[indexTableCount - 1].time) > 0 {
        var newEntry := FindFrom(previousEntry, t, p, before);
        temporalIndexTable[indexTableCount] := newEntry;
        indexTableCount := indexTableCount + 1;
        AppendedInsert(before, timeline, p, t, idx, pendingUpdateCount);
        idx := idx + [newEntry];
      } else {
        PendingNonNegative(before, idx, pendingUpdateCount);
        pendingUpdateCount := pendingUpdateCount + 1;
        var pendingRate := numTemporalEntries / pendingUpdateCount;
        if pendingRate < PENDING_UPDATE_RATE_THRESHOLD {
          UpdateIndexTable(numTemporalEntries);
        } else {
          PendingInsert(before, timeline, p, t, idx, pendingUpdateCount - 1);
        }
      }
    }

    /** Walks from `entry` to the cell of `t`; the list cannot end before. */
    method FindFrom(entry: TemporalEntry, t: Time, ghost p: nat, ghost before: seq<TemporalEntry>)
      returns (newEntry: TemporalEntry)
      requires TimelineHeap() && InsertedAt(before, timeline, p, t)
      requires entry in timeline && Rank(entry.time) <= Rank(t)
      ensures newEntry == timeline[p]
    {
      hide Rank, Compare;
      var e: TemporalEntry? := entry;
      ghost var i :| 0 <= i < |timeline| && timeline[i] == entry;
      while e != null && Compare(e.time, t) != 0
        invariant 0 <= i <= p && e == timeline[i]
        decreases p - i
      {
        assert i < p;
        e := e.next;
        i := i + 1;
      }
      newEntry := e;
    }

    /** Replaces a cell by another in every slot, looking forward and backward from one of its slots.
        Gives back the last position before those slots. */
    method ReplaceIndexTablePosition(pos: nat, newEntry: TemporalEntry) returns (bPos: int)
      requires IndexHeap() && NonDecreasing(idx) && pos < |idx|
      requires forall k :: 0 <= k < |idx| && idx[k].time == idx[pos].time ==> idx[k] == idx[pos]
      modifies this`idx, temporalIndexTable
      ensures IndexHeap() && idx == Replaced(old(idx), old(idx)[pos], newEntry)
      ensures -1 <= bPos < pos
      ensures forall k :: 0 <= k <= bPos ==> Rank(old(idx)[k].time) < Rank(old(idx)[pos].time)
    {
      hide Rank, Compare;
      var table := temporalIndexTable;
      ghost var was := idx;
      var oldEntry := table[pos];
      ghost var r := Replaced(was, oldEntry, newEntry);
      table[pos] := newEntry;
      var fPos := pos + 1;
      while fPos < indexTableCount && Compare(oldEntry.time, table[fPos].time) == 0
        invariant pos < fPos <= |was|
        invariant forall k :: pos <= k < fPos ==> table[k] == newEntry && was[k] == oldEntry
        invariant forall k :: 0 <= k < |was| && !(pos <= k < fPos) ==> table[k] == was[k]
        modifies table
      {
        table[fPos] := newEntry;
        fPos := fPos + 1;
      }
      assert forall k :: fPos <= k < |was| ==> was[k] != oldEntry;
      bPos := pos - 1;
      while bPos >= 0 && Compare(oldEntry.time, table[bPos].time) == 0
        invariant -1 <= bPos < pos
        invariant forall k :: bPos < k < fPos ==> table[k] == newEntry && was[k] == oldEntry
        invariant forall k :: 0 <= k < |was| && !(bPos < k < fPos) ==> table[k] == was[k]
        modifies table
      {
        table[bPos] := newEntry;
        bPos := bPos - 1;
      }
      idx := r;
    }

    /** Makes the index table forget the cell of `t`, and finds a slot before its place. */
    method ForgetInIndex(t: Time, ghost q: nat) returns (pos: int)
      requires TimelineHeap() && IndexHeap() && PointsInto(idx, timeline) && NonDecreasing(idx)
      requires idx != [] && q < |timeline| && timeline[q].time == t
      modifies this`indexTableCount, this`idx, temporalIndexTable
      ensures IndexHeap() && PointsInto(idx, timeline) && NonDecreasing(idx)
      ensures Forgets(old(idx), idx, timeline[q])
      ensures -1 <= pos < |idx| && (pos >= 0 ==> Rank(idx[pos].time) < Rank(t))
    {
      hide Rank, Compare, Ascending, NonDecreasing, Forgets, Replaced;
      ghost var was := idx;
      pos := GetTemporalIndexTablePos(t);
      SameTimeSameCell(timeline, idx, q);
      if pos >= 0 && Compare(temporalIndexTable[pos].time, t) == 0 {
        var entry := temporalIndexTable[pos];
        if entry.next != null {
          ReplacedOk(timeline, q, idx);
          pos := ReplaceIndexTablePosition(pos, entry.next);
          ReplacedBefore(was, entry, timeline[q + 1], pos);
        } else {
          pos := CutIndexTable(pos, q);
        }
      } else {
        UnindexedForgotten(idx, timeline[q]);
      }
    }

    /** Drops the slots of the last cell of the list, looking backward from one of them. */
    method CutIndexTable(at: nat, ghost q: nat) returns (pos: int)
      requires IndexHeap() && PointsInto(idx, timeline) && NonDecreasing(idx)
      requires q + 1 == |timeline| && at < |idx| && idx[at] == timeline[q] && Ascending(timeline)
      modifies this`indexTableCount, this`idx
      ensures IndexHeap() && PointsInto(idx, timeline) && NonDecreasing(idx)
      ensures Forgets(old(idx), idx, timeline[q])
      ensures -1 <= pos < |idx| && (pos >= 0 ==> Rank(idx[pos].time) < Rank(timeline[q].time))
    {
      hide Rank;
      var entry := temporalIndexTable[at];
      pos := at - 1;
      while pos >= 0 && temporalIndexTable[pos] == entry
        invariant -1 <= pos < at
        invariant forall k :: pos < k <= at ==> idx[k] == timeline[q]
      {
        pos := pos - 1;
      }
      indexTableCount := pos + 1;
      LastIsGreatest(timeline, idx, at, pos);
      CutOk(timeline, idx, pos);
      idx := idx[..pos + 1];
    }

    /** Takes the cell of `t` out of the sorted list, starting from the slot the index table proposes,
        after the index table has forgotten it. */
    method RemoveFromSortedEntries(t: Time, ghost q: nat)
      requires TimelineHeap() && IndexHeap() && IndexOk(timeline, idx, pendingUpdateCount)
      requires q < |timeline| && timeline[q].time == t
      requires |temporalMap| == |timeline| - 1
      modifies this`sortedTemporalList, this`timeline, this`temporalIndexTable, this`indexTableSize,
        this`indexTableCount, this`pendingUpdateCount, this`idx, temporalIndexTable, timeline
      ensures TimelineHeap() && IndexHeap() && IndexOk(timeline, idx, pendingUpdateCount)
      ensures timeline == RemoveAt(old(timeline), q)
      ensures old(timeline)[q] !in idx
      ensures temporalIndexTable == old(temporalIndexTable) || fresh(temporalIndexTable)
    {
      hide Rank, Ascending, NonDecreasing, Forgets, IndexOk, PointsInto;
      ghost var was, nodes := idx, timeline;
      IndexReady(nodes, was, pendingUpdateCount);
      var pos := ForgetInIndex(t, q);
      var currentTe := UnlinkAfter(pos, t, q);
      if indexTableCount > 0 && currentTe == temporalIndexTable[indexTableCount - 1] {
        ForgottenSlot(was, idx, currentTe, indexTableCount - 1);
        assert false;
      } else {
        pendingUpdateCount := pendingUpdateCount + 1;
        var numTemporalEntries := |temporalMap|;
        var pendingRate := numTemporalEntries / pendingUpdateCount;
        ForgottenIsGone(was, idx, currentTe);
        if pendingRate < PENDING_UPDATE_RATE_THRESHOLD {
          UpdateIndexTable(numTemporalEntries);
          RemovedCells(nodes, q);
        } else {
          PendingRemove(nodes, q, was, idx, pendingUpdateCount - 1);
        }
      }
    }

    /** Unlinks the cell of `t`, looking for it from slot `pos`, or from the head. */
    method UnlinkAfter(pos: int, t: Time, ghost q: nat) returns (currentTe: TemporalEntry)
      requires TimelineHeap() && IndexHeap() && PointsInto(idx, timeline)
      requires q < |timeline| && timeline[q].time == t
      requires -1 <= pos < |idx| && (pos >= 0 ==> Rank(idx[pos].time) < Rank(t))
      modifies this`sortedTemporalList, this`timeline, timeline
      ensures TimelineHeap() && timeline == RemoveAt(old(timeline), q)
      ensures currentTe == old(timeline)[q]
    {
      hide Rank, Compare;
      var previousTe: TemporalEntry? := null;
      var current := sortedTemporalList;
      ghost var i := 0;
      if pos >= 0 {
        previousTe := temporalIndexTable[pos];
        current := previousTe.next;
        assert idx[pos] in timeline;
        i :| 0 <= i < |timeline| && timeline[i] == idx[pos];
        i := i + 1;
      }
      // The cell is in the list, so the walk neither passes its place nor reaches the end.
      while Compare(current.time, t) != 0
        invariant 0 <= i <= q && current == timeline[i]
        invariant previousTe == if i > 0 then timeline[i - 1] else null
        decreases q - i
      {
        assert i < q;
        previousTe := current;
        current := current.next;
        i := i + 1;
      }
      currentTe := current;
      Unlink(previousTe, currentTe, q);
    }

    method Unlink(previousTe: TemporalEntry?, currentTe: TemporalEntry, ghost q: nat)
      requires TimelineHeap() && q < |timeline| && currentTe == timeline[q]
      requires previousTe == if q > 0 then timeline[q - 1] else null
      modifies this`sortedTemporalList, this`timeline, timeline
      ensures TimelineHeap() && timeline == RemoveAt(old(timeline), q)
    {
      hide *;
      ghost var nodes := timeline;
      TimelineParts();
      AscendingDistinct(nodes);
      RemoveAtAscending(nodes, q);
      RemovedOwners(nodes, q, Timeline);
      ChainHead(sortedTemporalList, nodes);
      sortedTemporalList := UnlinkCell(sortedTemporalList, previousTe, currentTe, nodes, q);
      timeline := RemoveAt(nodes, q);
      TimelineWhole();
    }

    lemma TimelineParts()
      requires TimelineHeap()
      ensures Chain(sortedTemporalList, timeline) && Ascending(timeline)
      ensures forall k :: 0 <= k < |timeline| ==> timeline[k].owner == Timeline
    {
    }

    lemma TimelineWhole()
      requires Chain(sortedTemporalList, timeline) && Ascending(timeline)
      requires forall k :: 0 <= k < |timeline| ==> timeline[k].owner == Timeline
      ensures TimelineHeap()
    {
    }

    static lemma ChainHead(head: TemporalEntry?, nodes: seq<TemporalEntry>)
      requires Chain(head, nodes)
      ensures nodes == [] <==> head == null
    {
    }

    // ------------------------------------------------------- the lists of the handles

    /** The cells of every list of a handle are linked in order. */
    ghost predicate Linked()
      reads this`lists, this`cells, cells
    {
      && (forall h :: h in lists ==> lists[h] != [])
      && (forall h, k :: h in lists && 0 <= k < |lists[h]| ==> lists[h][k] in cells)
      && (forall h, k {:trigger lists[h][k].next} :: h in lists && 0 <= k < |lists[h]| ==>
            lists[h][k].next == if k + 1 < |lists[h]| then lists[h][k + 1] else null)
    }

    ghost predicate ListsHeap()
      reads this`handleMap, this`lists, this`cells, cells
    {
      Linked() && HeadsPoint(handleMap, lists)
    }

    /** The handles whose tail pointer points to the last cell of their list. */
    ghost function RightTails(): set<Handle>
      reads this`tailHandleMap, this`lists
    {
      RightTailsOf(tailHandleMap, lists)
    }

    /** The handles whose tail pointer points to a cell outside of their list. */
    ghost function LostTails(): set<Handle>
      reads this`tailHandleMap, this`lists
    {
      LostTailsOf(tailHandleMap, lists)
    }

    /** There are no other tail pointers. */
    ghost predicate TailsSound()
      reads this`tailHandleMap, this`lists
    {
      TailsSoundOf(tailHandleMap, lists)
    }

    lemma TailsMean()
      ensures RightTails() == RightTailsOf(tailHandleMap, lists) && LostTails() == LostTailsOf(tailHandleMap, lists)
      ensures TailsSound() <==> TailsSoundOf(tailHandleMap, lists)
    {
    }

    /** If the handle has a tail pointer, it is right: an addition reads it. */
    ghost predicate TailUsable(h: Handle)
      reads this`tailHandleMap, this`lists
    {
      h in tailHandleMap ==> TailRight(tailHandleMap, lists, h)
    }

    /** Enters a pair into the list of the handle and into the map from times to handle sets. */
    method AddToMaps(h: Handle, t: Time)
      requires ListsHeap() && ListsOk(lists, temporalMap) && CellsOwned(cells) && TailUsable(h)
      modifies this`handleMap, this`tailHandleMap, this`temporalMap, this`lists, this`cells, CellsOf(lists, h)
      ensures ListsHeap() && ListsOk(lists, temporalMap)
      ensures temporalMap == old(temporalMap)[t := HandlesAt(old(temporalMap), t) + {h}]
      ensures TailSet(old(tailHandleMap), old(lists), h, tailHandleMap, lists)
      ensures fresh(cells - old(cells)) && CellsOwned(cells)
    {
      hide *;
      ghost var was, m := lists, temporalMap;
      ghost var r := AddToHandleList(h, t);
      ListsOkEntered(was, m, h, t, r);
      var handleSet := HandlesAt(temporalMap, t);
      temporalMap := temporalMap[t := handleSet + {h}];
    }

    /** Enters a time into the list of a handle: behind its tail when that is possible, otherwise
        from its head. */
    method AddToHandleList(h: Handle, t: Time) returns (ghost r: seq<TemporalEntry>)
      requires ListsHeap() && ListsOk(lists, temporalMap) && CellsOwned(cells) && TailUsable(h)
      modifies this`handleMap, this`tailHandleMap, this`lists, this`cells, CellsOf(lists, h)
      ensures ListsHeap()
      ensures lists == old(lists)[h := r] && Entered(CellsOf(old(lists), h), r, t, Of(h))
      ensures TailSet(old(tailHandleMap), old(lists), h, tailHandleMap, lists)
      ensures fresh(cells - old(cells)) && CellsOwned(cells)
    {
      hide *;
      ghost var nodes := CellsOf(lists, h);
      HandleList(lists, temporalMap, h);
      OwnersDiffer(lists, temporalMap, h);
      OtherLists(h);
      var timeEntry, tailTimeEntry := EntryOf(handleMap, h), EntryOf(tailHandleMap, h);
      timeEntry, tailTimeEntry, r := EnterTime(timeEntry, tailTimeEntry, t, nodes, Of(h));
      ghost var added := Cells(r);
      OldOrNew(nodes, r, cells);
      EnteredSome(nodes, r, t, h);
      SetTail(tailHandleMap, lists, h, r, tailTimeEntry);
      OwnedCells(cells, r, h);
      InstallList(h, timeEntry, r, added);
      tailHandleMap := tailHandleMap[h := tailTimeEntry];
    }

    /** The list of `h` and its tail, and the lists of the other handles, which do not share its cells. */
    lemma OtherLists(h: Handle)
      requires ListsHeap() && TailUsable(h)
      ensures Chain(EntryOf(handleMap, h), CellsOf(lists, h))
      ensures forall k :: 0 <= k < |CellsOf(lists, h)| ==> CellsOf(lists, h)[k] in cells
      ensures var nodes, tail := CellsOf(lists, h), EntryOf(tailHandleMap, h);
        tail != null ==> nodes != [] && tail == nodes[|nodes| - 1]
      ensures handleMap.Keys == lists.Keys
      ensures forall g :: g in lists && g != h ==> lists[g] != [] && handleMap[g] == lists[g][0]
      ensures forall g, k :: g in lists && g != h && 0 <= k < |lists[g]| ==> lists[g][k] in cells
      ensures forall g, k {:trigger lists[g][k].next} :: g in lists && g != h && 0 <= k < |lists[g]| ==>
        lists[g][k].next == if k + 1 < |lists[g]| then lists[g][k + 1] else null
    {
    }

    static lemma OldOrNew(nodes: seq<TemporalEntry>, r: seq<TemporalEntry>, old': set<TemporalEntry>)
      ensures forall c :: c in Cells(r) - old' ==> exists k :: 0 <= k < |r| && r[k] == c && c !in old'
      ensures forall k :: 0 <= k < |r| ==> r[k] in Cells(r)
    {
    }

    static lemma EnteredSome(nodes: seq<TemporalEntry>, r: seq<TemporalEntry>, t: Time, h: Handle)
      requires Entered(nodes, r, t, Of(h))
      ensures r != [] && forall k :: 0 <= k < |r| ==> r[k].owner == Of(h)
    {
    }

    /** Puts the list of a handle back. */
    method InstallList(h: Handle, timeEntry: TemporalEntry, ghost r: seq<TemporalEntry>,
                       ghost added: set<TemporalEntry>)
      requires handleMap.Keys == lists.Keys
      requires forall g :: g in lists && g != h ==> lists[g] != [] && handleMap[g] == lists[g][0]
      requires forall g, k :: g in lists && g != h && 0 <= k < |lists[g]| ==> lists[g][k] in cells
      requires forall g, k {:trigger lists[g][k].next} :: g in lists && g != h && 0 <= k < |lists[g]| ==>
        lists[g][k].next == if k + 1 < |lists[g]| then lists[g][k + 1] else null
      requires forall k :: 0 <= k < |r| ==> r[k] in added
      requires r != [] && Chain(timeEntry, r)
      modifies this`handleMap, this`lists, this`cells
      ensures ListsHeap()
      ensures lists == old(lists)[h := r] && cells == old(cells) + added
    {
      hide Rank, Compare;
      handleMap := handleMap[h := timeEntry];
      lists := lists[h := r];
      cells := cells + added;
    }

    // ------------------------------------------------------- the whole table

    /** Everything but the tail pointers. */
    ghost predicate Valid()
      reads this, temporalIndexTable, timeline, cells
    {
      && TimelineHeap() && IndexHeap() && ListsHeap()
      && IndexOk(timeline, idx, pendingUpdateCount)
      && ListsOk(lists, temporalMap)
      && KeysOk(timeline, temporalMap)
      && CellsOwned(cells)
    }

    /** The pairs the table holds. */
    ghost function Relation(): set<(Handle, Time)>
      reads this`temporalMap
    {
      Pairs(temporalMap)
    }

    constructor ()
      ensures Valid() && Relation() == {} && tailHandleMap == map[]
      ensures TailsSound() && RightTails() == {} && LostTails() == {}
      ensures fresh(temporalIndexTable) && cells == {} && timeline == []
    {
      handleMap, tailHandleMap, temporalMap := map[], map[], map[];
      sortedTemporalList := null;
      temporalIndexTable := new TemporalEntry?[INITIAL_INDEX_TABLE_SIZE];
      indexTableSize := INITIAL_INDEX_TABLE_SIZE;
      indexTableCount, pendingUpdateCount := 0, 0;
      timeline, lists, cells, idx := [], map[], {}, [];
      new;
      hide Rank;
      assert Missing(timeline, idx) == {};
    }

    /** Adds a pair; the handle has a right tail pointer from then on. The flag value for "no time" cannot be
        copied, so adding it fails. */
    method Add(h: Handle, t: Temporal) returns (r: Result<(), TemporalError>)
      requires Valid() && TailUsable(h)
      requires t.Proper() || t == UNDEFINED_TEMPORAL
      modifies this, temporalIndexTable, timeline, cells
      ensures Valid()
      ensures t.Proper() ==> r.Success? && Relation() == old(Relation()) + {(h, t)}
      ensures t.Proper() ==> Times(timeline) == InsertTime(Times(old(timeline)), t)
      ensures t.Proper() ==> RightTails() == old(RightTails()) + {h} && LostTails() == old(LostTails())
      ensures old(TailsSound()) ==> TailsSound()
      ensures t == UNDEFINED_TEMPORAL ==> r == Failure(UpperBoundReached) && unchanged(this)
      ensures fresh(cells - old(cells))
      ensures forall k :: 0 <= k < |timeline| ==> timeline[k] in old(timeline) || fresh(timeline[k])
      ensures temporalIndexTable == old(temporalIndexTable) || fresh(temporalIndexTable)
    {
      if t !in temporalMap {
        var internal := Init(t.a, t.b, t.normal);
        InitAccepts(t.a, t.b, t.normal);
        if internal.Failure? {
          return Failure(internal.error);
        }
      }
      AddTime(h, t);
      r := Success(());
    }

    method AddTime(h: Handle, t: Time)
      requires Valid() && TailUsable(h)
      modifies this, temporalIndexTable, timeline, cells
      ensures Valid()
      ensures Relation() == old(Relation()) + {(h, t)}
      ensures Times(timeline) == InsertTime(Times(old(timeline)), t)
      ensures RightTails() == old(RightTails()) + {h} && LostTails() == old(LostTails())
      ensures old(TailsSound()) ==> TailsSound()
      ensures fresh(cells - old(cells))
      ensures forall k :: 0 <= k < |timeline| ==> timeline[k] in old(timeline) || fresh(timeline[k])
      ensures temporalIndexTable == old(temporalIndexTable) || fresh(temporalIndexTable)
    {
      hide *;
      Parts();
      ghost var before, m, tails, was := timeline, temporalMap, tailHandleMap, lists;
      TailsMean();
      NotLost(h);
      var oldNumTemporalEntries := |temporalMap|;
      CellsApart(cells, timeline);
      IndexParts(timeline, idx, pendingUpdateCount);
      var previousEntry;
      ghost var p;
      previousEntry, p := AddToTimeline(t);
      TimelineOwners();
      CellsApart(cells, timeline);
      HandleCells(h);
      AddToMaps(h, t);
      TailSetMeans(tails, was, h, tailHandleMap, lists);
      var numTemporalEntries := |temporalMap|;
      AddedTime(before, timeline, p, m, h, t);
      PairsAdd(m, h, t);
      if numTemporalEntries != oldNumTemporalEntries {
        NoteNewTime(previousEntry, t, numTemporalEntries, before, p);
      }
      Whole();
      TailsMean();
    }

    lemma NotLost(h: Handle)
      requires TailUsable(h)
      ensures LostTails() - {h} == LostTails()
    {
    }

    lemma Parts()
      requires Valid()
      ensures TimelineHeap() && IndexHeap() && ListsHeap()
      ensures IndexOk(timeline, idx, pendingUpdateCount)
      ensures ListsOk(lists, temporalMap) && KeysOk(timeline, temporalMap) && CellsOwned(cells)
      ensures Ascending(timeline) && forall k :: 0 <= k < |timeline| ==> timeline[k].owner == Timeline
      ensures Relation() == Pairs(temporalMap)
    {
      hide Rank;
    }

    lemma TimelineOwners()
      requires TimelineHeap()
      ensures forall k :: 0 <= k < |timeline| ==> timeline[k].owner == Timeline
    {
    }

    lemma HandleCells(h: Handle)
      requires ListsHeap()
      ensures forall k :: 0 <= k < |CellsOf(lists, h)| ==> CellsOf(lists, h)[k] in cells
    {
    }

    lemma ListsWhole()
      requires Linked() && HeadsPoint(handleMap, lists)
      ensures ListsHeap()
    {
    }

    lemma Whole()
      requires TimelineHeap() && IndexHeap() && ListsHeap()
      requires IndexOk(timeline, idx, pendingUpdateCount)
      requires ListsOk(lists, temporalMap) && KeysOk(timeline, temporalMap) && CellsOwned(cells)
      ensures Valid() && Relation() == Pairs(temporalMap)
    {
      hide Rank;
    }

    // ------------------------------------------------------- removal

    /** The sorted list of all times, the index table, and the keys of the map. */
    ghost predicate TimesOk()
      reads this`sortedTemporalList, this`timeline, this`temporalIndexTable, this`indexTableSize,
        this`indexTableCount, this`pendingUpdateCount, this`idx, this`temporalMap, temporalIndexTable, timeline
    {
      && TimelineHeap() && IndexHeap()
      && IndexOk(timeline, idx, pendingUpdateCount)
      && KeysOk(timeline, temporalMap)
    }

    /** Takes a handle from the handle set of a time. A time that loses its last handle leaves the
        map and the sorted list of all times, as a plain deletion would take it out. */
    method DropFromTime(h: Handle, time: Time)
      requires TimesOk() && Related(temporalMap, h, time)
      modifies this`temporalMap, this`sortedTemporalList, this`timeline, this`temporalIndexTable,
        this`indexTableSize, this`indexTableCount, this`pendingUpdateCount, this`idx, temporalIndexTable, timeline
      ensures TimesOk() && temporalMap == DropPair(old(temporalMap), h, time)
      ensures Times(timeline) ==
        if time in temporalMap then Times(old(timeline)) else DeleteTime(Times(old(timeline)), time)
      ensures forall k :: 0 <= k < |timeline| ==> timeline[k] in old(timeline)
      ensures temporalIndexTable == old(temporalIndexTable) || fresh(temporalIndexTable)
    {
      hide Rank, Ascending, NonDecreasing, IndexOk, PointsInto, HasTime, RemoveAt, KeysOk;
      ghost var nodes, m := timeline, temporalMap;
      var hs := temporalMap[time] - {h};
      if hs == {} {
        ghost var q := PlaceOf(nodes, m, time);
        temporalMap := temporalMap - {time};
        RemoveFromSortedEntries(time, q);
        TimeGone(nodes, m, q);
      } else {
        temporalMap := temporalMap[time := hs];
        SameKeys(nodes, m, temporalMap);
      }
    }

    /** Takes a time out of the list of a handle. */
    method DropFromList(te: TemporalEntry?, time: Time, ghost h: Handle) returns (head: TemporalEntry?)
      requires Linked() && Ascending(CellsOf(lists, h)) && te == HeadOf(CellsOf(lists, h))
      requires forall k :: 0 <= k < |CellsOf(lists, h)| ==> CellsOf(lists, h)[k].owner == Of(h)
      requires forall g, k :: g in lists && g != h && 0 <= k < |lists[g]| ==> lists[g][k] !in CellsOf(lists, h)
      modifies this`lists, CellsOf(lists, h)
      ensures Linked() && lists == WithCells(old(lists), h, Without(CellsOf(old(lists), h), time))
      ensures head == HeadOf(CellsOf(lists, h))
    {
      hide Rank;
      ghost var nodes := CellsOf(lists, h);
      AscendingDistinct(nodes);
      head := TemporalEntries.Remove(te, time, nodes);
      WithoutFacts(nodes, time, Of(h));
      hide Without, Ascending, HasTime;
      lists := WithCells(lists, h, Without(nodes, time));
    }

    /** The state between two steps of a removal for `h`: the list of `h` starts at `te`, while the
        map of heads still holds its old head. */
    ghost predicate Between(h: Handle, te: TemporalEntry?)
      reads this, temporalIndexTable, timeline, cells
    {
      && TimesOk() && Linked() && CellsOwned(cells)
      && ListsOk(lists, temporalMap)
      && HeadsPointBut(handleMap, lists, h)
      && te == HeadOf(CellsOf(lists, h))
    }

    /** Removes the pair of `h` and one time of its list, and gives back the new head of the list and
        the cell behind the removed one. The tail pointer goes with its cell. */
    method RemoveMatch(h: Handle, te: TemporalEntry?, currentTe: TemporalEntry, tailTe: TemporalEntry?,
                       ghost kept: seq<TemporalEntry>, ghost rest: seq<TemporalEntry>)
      returns (head: TemporalEntry?, next: TemporalEntry?)
      requires Between(h, te) && CellsOf(lists, h) == kept + [currentTe] + rest
      modifies this`tailHandleMap, this`lists, this`temporalMap, this`sortedTemporalList, this`timeline,
        this`temporalIndexTable, this`indexTableSize, this`indexTableCount, this`pendingUpdateCount, this`idx,
        temporalIndexTable, timeline, cells
      ensures Between(h, head) && CellsOf(lists, h) == kept + rest
      ensures lists == WithCells(old(lists), h, kept + rest)
      ensures next == if rest == [] then null else rest[0]
      ensures currentTe.time in old(temporalMap)
      ensures temporalMap == DropPair(old(temporalMap), h, currentTe.time)
      ensures tailHandleMap == if tailTe == currentTe then old(tailHandleMap) - {h} else old(tailHandleMap)
      ensures forall k :: 0 <= k < |timeline| ==> timeline[k] in old(timeline)
      ensures temporalIndexTable == old(temporalIndexTable) || fresh(temporalIndexTable)
    {
      hide *;
      ghost var was, m, nodes := lists, temporalMap, CellsOf(lists, h);
      var t := currentTe.time;
      BetweenParts(h, te, kept, currentTe, rest);
      DropFromTime(h, t);
      next := currentTe.next;
      if tailTe != null && tailTe == currentTe {
        tailHandleMap := tailHandleMap - {h};
      }
      ghost var r := Without(nodes, t);
      head := DropFromList(te, t, h);
      assert TimesOk();
      ListsOkDrop(was, m, h, t, r);
      DroppedCells(was, h, kept, currentTe, rest);
      BetweenWhole(h, head);
    }

    lemma BetweenParts(h: Handle, te: TemporalEntry?, kept: seq<TemporalEntry>, x: TemporalEntry,
                       rest: seq<TemporalEntry>)
      requires Between(h, te) && CellsOf(lists, h) == kept + [x] + rest
      ensures TimesOk() && Linked() && CellsOwned(cells) && ListsOk(lists, temporalMap)
      ensures HeadsPointBut(handleMap, lists, h) && te == HeadOf(CellsOf(lists, h))
      ensures Related(temporalMap, h, x.time) && x.time in temporalMap
      ensures x in cells && x.next == if rest == [] then null else rest[0]
      ensures var nodes := CellsOf(lists, h);
        Ascending(nodes) && forall k :: 0 <= k < |nodes| ==> nodes[k].owner == Of(h)
      ensures forall k :: 0 <= k < |CellsOf(lists, h)| ==> CellsOf(lists, h)[k] in cells
      ensures forall g, k :: g in lists && g != h && 0 <= k < |lists[g]| ==> lists[g][k] !in CellsOf(lists, h)
      ensures forall c :: c in cells ==> c !in timeline
      ensures var nodes, r := CellsOf(lists, h), Without(CellsOf(lists, h), x.time);
        && Ascending(r) && (forall k :: 0 <= k < |r| ==> r[k].owner == Of(h))
        && (forall u :: HasTime(r, u) <==> HasTime(nodes, u) && u != x.time)
    {
      hide Rank, Without, ListsOk, Ascending, IndexOk, KeysOk;
      var nodes := CellsOf(lists, h);
      HandleList(lists, temporalMap, h);
      OwnersDiffer(lists, temporalMap, h);
      WithoutFacts(nodes, x.time, Of(h));
      CellsApart(cells, timeline);
      assert nodes[|kept|] == x;
      assert rest != [] ==> nodes[|kept| + 1] == rest[0];
      assert HasTime(nodes, x.time);
    }

    lemma BetweenWhole(h: Handle, te: TemporalEntry?)
      requires TimesOk() && Linked() && CellsOwned(cells) && ListsOk(lists, temporalMap)
      requires HeadsPointBut(handleMap, lists, h) && te == HeadOf(CellsOf(lists, h))
      ensures Between(h, te)
    {
      hide Rank;
    }

    lemma NextCell(h: Handle, te: TemporalEntry?, kept: seq<TemporalEntry>, x: TemporalEntry, rest: seq<TemporalEntry>)
      requires Between(h, te) && CellsOf(lists, h) == kept + [x] + rest
      ensures x.next == if rest == [] then null else rest[0]
    {
      hide Rank, IndexOk, KeysOk, ListsOk, Ascending;
      var nodes := CellsOf(lists, h);
      assert nodes[|kept|] == x;
      assert rest != [] ==> nodes[|kept| + 1] == rest[0];
    }

    lemma BetweenList(h: Handle, te: TemporalEntry?)
      requires Between(h, te)
      ensures te == if CellsOf(lists, h) == [] then null else CellsOf(lists, h)[0]
      ensures Ascending(CellsOf(lists, h))
      ensures var ts := Times(CellsOf(lists, h)); Increasing(ts) && TimeSet(ts) == TimesOf(Pairs(temporalMap), h)
      ensures forall k :: 0 <= k < |timeline| ==> timeline[k] in timeline
    {
      hide Rank, IndexOk, KeysOk, ListsOk, Ascending, Pairs;
      HandleList(lists, temporalMap, h);
      ListTimeSet(lists, temporalMap, h);
    }

    /** Scans the list of `h`. Matches are removed on the way, or only remembered for the criteria that
        want the previous time. */
    method RemoveScan(h: Handle, first: TemporalEntry?, tailTe: TemporalEntry?, t: Temporal,
                      criterion: TemporalRelationship)
      returns (te: TemporalEntry?, result: bool, previousTe: TemporalEntry?)
      requires Between(h, first) && (t.Proper() || t == UNDEFINED_TEMPORAL) && tailTe == EntryOf(tailHandleMap, h)
      modifies this`tailHandleMap, this`lists, this`temporalMap, this`sortedTemporalList, this`timeline,
        this`temporalIndexTable, this`indexTableSize, this`indexTableCount, this`pendingUpdateCount, this`idx,
        temporalIndexTable, timeline, cells
      ensures Between(h, te)
      ensures var chosen := Selected(TimesOf(Pairs(old(temporalMap)), h), t, criterion);
        && (result <==> chosen != {})
        && (!OnlyRemembers(t, criterion) ==> previousTe == null)
        && (!OnlyRemembers(t, criterion) ==> LostPairs(old(temporalMap), temporalMap, h, chosen))
        && (OnlyRemembers(t, criterion) ==> chosen == if previousTe != null then {previousTe.time} else {})
      ensures OnlyRemembers(t, criterion) ==> Pairs(temporalMap) == Pairs(old(temporalMap))
      ensures OnlyRemembers(t, criterion) ==> lists == old(lists)
      ensures OnlyRemembers(t, criterion) ==> tailHandleMap == old(tailHandleMap)
      ensures previousTe != null ==> previousTe in CellsOf(lists, h)
      ensures TailsSoFar(old(tailHandleMap), old(lists), tailHandleMap, lists, h)
      ensures forall k :: 0 <= k < |timeline| ==> timeline[k] in old(timeline)
      ensures temporalIndexTable == old(temporalIndexTable) || fresh(temporalIndexTable)
    {
      hide *;
      ghost var all, m0, tails0, lists0 := CellsOf(lists, h), temporalMap, tailHandleMap, lists;
      TailsAtFirst(tailHandleMap, lists, h);
      BetweenList(h, first);
      ProgressStart(temporalMap, lists, h, t, criterion);
      te, result, previousTe := first, false, null;
      var currentTe := te;
      var searchFinished := false;
      ghost var k, kept, p := 0, [], -1;
      while currentTe != null && !searchFinished
        invariant k <= |all| && -1 <= p < k
        invariant currentTe == if k < |all| then all[k] else null
        invariant previousTe == if p >= 0 then all[p] else null
        invariant Between(h, te)
        invariant Progress(all, k, searchFinished, kept, m0, temporalMap, lists, h, t, criterion, p, result)
        invariant TailsSoFar(tails0, lists0, tailHandleMap, lists, h)
        invariant forall k :: 0 <= k < |timeline| ==> timeline[k] in old(timeline)
        invariant temporalIndexTable == old(temporalIndexTable) || fresh(temporalIndexTable)
        invariant cells == old(cells)
        invariant OnlyRemembers(t, criterion) ==> tailHandleMap == old(tailHandleMap) && lists == old(lists)
        decreases |all| - k
      {
        ghost var m, was, rest, x := temporalMap, lists, all[k + 1..], all[k];
        ProgressCells(all, k, kept, m0, m, was, h, t, criterion, p, result);
        var matches;
        matches, searchFinished := MatchesQuery(currentTe.time, t, criterion);
        if matches {
          if OnlyRemembers(t, criterion) {
            ProgressRemember(all, k, searchFinished, kept, m0, m, was, h, t, criterion, p, result);
            NextCell(h, te, kept, currentTe, rest);
            previousTe := currentTe;
            currentTe := currentTe.next;
            p, kept := k, kept + [x];
          } else {
            BetweenList(h, te);
            TailsNext(tails0, lists0, tailHandleMap, lists, h, kept, x, rest, tailTe);
            te, currentTe := RemoveMatch(h, te, currentTe, tailTe, kept, rest);
            ProgressDrop(all, k, searchFinished, kept, m0, m, was, lists, h, t, criterion, p, result);
          }
          result := true;
        } else {
          ProgressSkip(all, k, searchFinished, kept, m0, m, was, h, t, criterion, p, result);
          NextCell(h, te, kept, currentTe, rest);
          currentTe := currentTe.next;
          kept := kept + [x];
        }
        k := k + 1;
      }
      ProgressDone(all, k, searchFinished, kept, m0, temporalMap, lists, h, t, criterion, p, result);
    }

    lemma RemovalStart(h: Handle)
      requires Valid()
      ensures Between(h, EntryOf(handleMap, h)) && ListsOk(lists, temporalMap)
      ensures Relation() == Pairs(temporalMap)
    {
      hide Rank, IndexOk, KeysOk, ListsOk, Ascending, Pairs;
    }

    lemma RemovalEnd(h: Handle, te: TemporalEntry?)
      requires Between(h, te)
      ensures TimelineHeap() && IndexHeap() && Linked() && CellsOwned(cells)
      ensures IndexOk(timeline, idx, pendingUpdateCount)
      ensures ListsOk(lists, temporalMap) && KeysOk(timeline, temporalMap)
      ensures HeadsPoint(if te == null then handleMap - {h} else (handleMap - {h})[h := te], lists)
    {
      hide Rank, IndexOk, KeysOk, ListsOk, Ascending;
    }

    /** Removes the pair of the remembered cell; no tail pointer changes. */
    method RemoveRemembered(h: Handle, te: TemporalEntry?, previousTe: TemporalEntry) returns (head: TemporalEntry?)
      requires Between(h, te) && previousTe in CellsOf(lists, h)
      modifies this`tailHandleMap, this`lists, this`temporalMap, this`sortedTemporalList, this`timeline,
        this`temporalIndexTable, this`indexTableSize, this`indexTableCount, this`pendingUpdateCount, this`idx,
        temporalIndexTable, timeline, cells
      ensures Between(h, head)
      ensures tailHandleMap == old(tailHandleMap) && Fewer(old(lists), lists)
      ensures LostPairs(old(temporalMap), temporalMap, h, {previousTe.time})
      ensures forall k :: 0 <= k < |timeline| ==> timeline[k] in old(timeline)
      ensures temporalIndexTable == old(temporalIndexTable) || fresh(temporalIndexTable)
    {
      hide *;
      ghost var nodes, m, was := CellsOf(lists, h), temporalMap, lists;
      ghost var k :| 0 <= k < |nodes| && nodes[k] == previousTe;
      ghost var kept, rest := nodes[..k], nodes[k + 1..];
      assert nodes == kept + [previousTe] + rest;
      BetweenParts(h, te, kept, previousTe, rest);
      FewerCells(lists, h, kept, previousTe, rest);
      ghost var next;
      head, next := RemoveMatch(h, te, previousTe, null, kept, rest);
      PairsDrop(m, h, previousTe.time);
      SingleRemoved(m, temporalMap, h, previousTe.time);
      RemovalEnd(h, head);
    }

    /** Removes the pairs of a handle that a search selects. */
    method RemoveForHandle(h: Handle, t: Temporal, criterion: TemporalRelationship) returns (result: bool)
      requires Valid() && h != UNDEFINED_HANDLE && (t.Proper() || t == UNDEFINED_TEMPORAL)
      modifies this, temporalIndexTable, timeline, cells
      ensures Valid()
      ensures result <==> Gone(old(Relation()), h, t, criterion) != {}
      ensures Relation() == old(Relation()) - Gone(old(Relation()), h, t, criterion)
      ensures old(TailsSound()) ==>
        && TailsSound()
        && TailsFollow(old(Relation()), old(RightTails()), old(LostTails()), h, t, criterion, RightTails(), LostTails())
      ensures cells == old(cells) && forall k :: 0 <= k < |timeline| ==> timeline[k] in old(timeline)
      ensures temporalIndexTable == old(temporalIndexTable) || fresh(temporalIndexTable)
    {
      hide *;
      ghost var m, was, tails := temporalMap, lists, tailHandleMap;
      ghost var chosen, sound := Selected(TimesOf(Relation(), h), t, criterion), TailsSound();
      var te, tailTe := EntryOf(handleMap, h), EntryOf(tailHandleMap, h);
      RemovalStart(h);
      TailsMean();
      GoneOfHandle(Pairs(m), h, t, criterion);
      var previousTe;
      te, result, previousTe := RemoveScan(h, te, tailTe, t, criterion);
      ghost var m1 := temporalMap;
      RemovalEnd(h, te);
      if OnlyRemembers(t, criterion) {
        SameLists(was);
        if previousTe != null {
          te := RemoveRemembered(h, te, previousTe);
        } else {
          NothingRemoved(m, m1, h);
        }
        RemovalPairs(m, m1, temporalMap, h, chosen);
        TailsRemembered(Pairs(m), tails, was, h, t, criterion);
      } else {
        RemovalPairs(m, m1, temporalMap, h, chosen);
        TailsScanned(tails, was, m, tailHandleMap, lists, temporalMap, h, t, criterion);
      }
      RemovalEnd(h, te);
      if sound {
        TailsFollowed(tails, was, m, tailHandleMap, lists, temporalMap, h, t, criterion);
      }
      TailsMean();
      PutBack(h, te);
    }

    lemma SameLists(lists0: map<Handle, seq<TemporalEntry>>)
      ensures Fewer(lists0, lists0)
    {
    }

    /** Puts the head of the list of `h` into the map, if there is any list left. */
    method PutBack(h: Handle, te: TemporalEntry?)
      requires Between(h, te)
      modifies this`handleMap
      ensures Valid() && Relation() == Pairs(temporalMap)
    {
      hide *;
      RemovalEnd(h, te);
      handleMap := handleMap - {h};
      if te != null {
        handleMap := handleMap[h := te];
      }
      ListsWhole();
      Whole();
    }

    // ------------------------------------------------------- removal for all handles

    /** Takes a time out of the list of one of its handles. The tail pointer is looked for at the head of
        the list, so it goes only with a list that is the tail cell alone. `m` holds the pairs of the
        lists. */
    method DropTimeFor(g: Handle, t: Time, ghost m: map<Time, set<Handle>>)
      requires ListsHeap() && ListsOk(lists, m) && Related(m, g, t)
      modifies this`handleMap, this`tailHandleMap, this`lists, CellsOf(lists, g)
      ensures ListsHeap() && ListsOk(lists, DropPair(m, g, t))
      ensures lists == WithCells(old(lists), g, Without(CellsOf(old(lists), g), t))
      ensures tailHandleMap ==
        if LoneTail(old(tailHandleMap), old(lists), g) then old(tailHandleMap) - {g} else old(tailHandleMap)
    {
      hide *;
      ghost var was, heads, r := lists, handleMap, Without(CellsOf(lists, g), t);
      HandleList(lists, m, g);
      OwnersDiffer(lists, m, g);
      ListsHeapParts(g);
      WithoutFacts(CellsOf(lists, g), t, Of(g));
      var te := EntryOf(handleMap, g);
      handleMap := handleMap - {g};
      var tailTe := EntryOf(tailHandleMap, g);
      TailAtHead(tailHandleMap, lists, g);
      if tailTe != null && tailTe == te {
        tailHandleMap := tailHandleMap - {g};
      }
      te := DropFromList(te, t, g);
      ListsOkDrop(was, m, g, t, r);
      HeadsPointAgain(heads, was, g, r);
      if te != null {
        handleMap := handleMap[g := te];
      }
      ListsWhole();
    }

    lemma ListsHeapParts(g: Handle)
      requires ListsHeap()
      ensures Linked() && HeadsPoint(handleMap, lists) && EntryOf(handleMap, g) == HeadOf(CellsOf(lists, g))
    {
    }

    /** The handles of a time lose it one after the other, in any order. `m` holds the pairs of the lists
        at the start. */
    method DropFromLists(t: Time, hs: set<Handle>, ghost m: map<Time, set<Handle>>)
      requires ListsHeap() && ListsOk(lists, m) && t in m && m[t] == hs && hs != {}
      requires forall g, k :: g in lists && 0 <= k < |lists[g]| ==> lists[g][k] in cells
      modifies this`handleMap, this`tailHandleMap, this`lists, cells
      ensures ListsHeap() && ListsOk(lists, m - {t})
      ensures Fewer(old(lists), lists) && LoneTailsGone(old(tailHandleMap), old(lists), hs, tailHandleMap)
    {
      hide *;
      ghost var lists0, tails0 := lists, tailHandleMap;
      var rest := hs;
      assert hs - rest == {};
      DroppingBegins(m, t, tails0, lists0);
      while rest != {}
        invariant rest <= hs
        invariant ListsHeap() && ListsOk(lists, StillAt(m, t, rest))
        invariant Dropping(tails0, lists0, hs - rest, tailHandleMap, lists)
        decreases rest
      {
        var g :| g in rest;
        ghost var was, tails, m1 := lists, tailHandleMap, StillAt(m, t, rest);
        StillAtNext(m, t, rest, g);
        HandleCells(g);
        DropTimeFor(g, t, m1);
        DroppingNext(tails0, lists0, hs - rest, tails, was, tailHandleMap, lists, g, t);
        assert hs - rest + {g} == hs - (rest - {g});
        rest := rest - {g};
      }
      assert hs - rest == hs;
      DroppingEnds(m, t, tails0, lists0, hs, tailHandleMap, lists);
    }

    /** Removes a time with all its handles: from the map, from their lists, and from the list of all
        times. */
    method RemoveTime(t: Time, ghost q: nat)
      requires Valid() && q < |timeline| && timeline[q].time == t
      modifies this, temporalIndexTable, timeline, cells
      ensures Valid() && t in old(temporalMap) && temporalMap == old(temporalMap) - {t}
      ensures timeline == RemoveAt(old(timeline), q) && cells == old(cells)
      ensures Fewer(old(lists), lists)
      ensures LoneTailsGone(old(tailHandleMap), old(lists), old(temporalMap)[t], tailHandleMap)
      ensures temporalIndexTable == old(temporalIndexTable) || fresh(temporalIndexTable)
    {
      hide *;
      ghost var m, nodes := temporalMap, timeline;
      Parts();
      CellsApart(cells, timeline);
      TimeIsKey(nodes, m, q);
      TimeGone(nodes, m, q);
      HandlesOfKey(lists, m, t);
      var hs := temporalMap[t];
      temporalMap := temporalMap - {t};
      AllCells();
      DropFromLists(t, hs, m);
      assert TimelineHeap();
      RemoveFromSortedEntries(t, q);
      assert ListsHeap();
      Whole();
    }

    lemma AllCells()
      requires ListsHeap()
      ensures forall g, k :: g in lists && 0 <= k < |lists[g]| ==> lists[g][k] in cells
    {
    }

    /** Removes a time with all its handles, when earlier times have gone before. */
    method RemoveNext(ghost m0: map<Time, set<Handle>>, ghost lists0: map<Handle, seq<TemporalEntry>>,
                      ghost tails0: map<Handle, TemporalEntry>, ghost done: set<Time>, t: Time, ghost q: nat)
      requires Valid() && q < |timeline| && timeline[q].time == t && ListsOk(lists0, m0)
      requires Reduced(m0, lists0, tails0, temporalMap, lists, tailHandleMap, done)
      requires forall d :: d in done ==> Rank(d) < Rank(t)
      modifies this, temporalIndexTable, timeline, cells
      ensures Valid() && timeline == RemoveAt(old(timeline), q) && cells == old(cells)
      ensures Reduced(m0, lists0, tails0, temporalMap, lists, tailHandleMap, done + {t})
      ensures temporalIndexTable == old(temporalIndexTable) || fresh(temporalIndexTable)
    {
      hide *;
      ghost var m, was, tails := temporalMap, lists, tailHandleMap;
      Parts();
      RemoveTime(t, q);
      ReducedNext(m0, lists0, tails0, m, was, tails, lists, tailHandleMap, done, t);
    }

    /** While the list `all` of all times is gone through: the first `k` cells have been looked at, `kept`
        of them are still there, and the times `done` have been removed. */
    ghost predicate Underway(all: seq<TemporalEntry>, k: nat, kept: seq<TemporalEntry>, m0: map<Time, set<Handle>>,
                             lists0: map<Handle, seq<TemporalEntry>>, tails0: map<Handle, TemporalEntry>,
                             done: set<Time>)
      reads this, temporalIndexTable, timeline, cells
    {
      && k <= |all| && Valid() && timeline == kept + all[k..] && (forall j :: 0 <= j < |kept| ==> kept[j] in all)
      && ListsOk(lists0, m0) && Reduced(m0, lists0, tails0, temporalMap, lists, tailHandleMap, done)
    }

    lemma UnderwayBegins()
      requires Valid()
      ensures Underway(timeline, 0, [], temporalMap, lists, tailHandleMap, {})
      ensures Relation() == Pairs(temporalMap)
    {
      hide *;
      assert [] + timeline[0..] == timeline;
      Parts();
      ReducedBegins(temporalMap, lists, tailHandleMap);
      UnderwayAgain(timeline, 0, [], temporalMap, lists, tailHandleMap, {});
    }

    lemma UnderwayAgain(all: seq<TemporalEntry>, k: nat, kept: seq<TemporalEntry>, m0: map<Time, set<Handle>>,
                        lists0: map<Handle, seq<TemporalEntry>>, tails0: map<Handle, TemporalEntry>, done: set<Time>)
      requires k <= |all| && Valid() && timeline == kept + all[k..] && (forall j :: 0 <= j < |kept| ==> kept[j] in all)
      requires ListsOk(lists0, m0) && Reduced(m0, lists0, tails0, temporalMap, lists, tailHandleMap, done)
      ensures Underway(all, k, kept, m0, lists0, tails0, done)
    {
      hide Valid, Reduced, ListsOk;
    }

    /** The next cell can be passed by. */
    lemma UnderwayNext(all: seq<TemporalEntry>, k: nat, kept: seq<TemporalEntry>, m0: map<Time, set<Handle>>,
                       lists0: map<Handle, seq<TemporalEntry>>, tails0: map<Handle, TemporalEntry>, done: set<Time>)
      requires Underway(all, k, kept, m0, lists0, tails0, done) && k < |all|
      ensures all[k].next == if k + 1 < |all| then all[k + 1] else null
      ensures Underway(all, k + 1, kept + [all[k]], m0, lists0, tails0, done)
    {
      hide Valid, Reduced, ListsOk;
      MiddleCell(kept, all, k);
      assert timeline[|kept|] == all[k];
      TimelineTimes();
    }

    lemma UnderwayParts(all: seq<TemporalEntry>, k: nat, kept: seq<TemporalEntry>, m0: map<Time, set<Handle>>,
                        lists0: map<Handle, seq<TemporalEntry>>, tails0: map<Handle, TemporalEntry>, done: set<Time>)
      requires Underway(all, k, kept, m0, lists0, tails0, done)
      ensures Valid() && ListsOk(lists0, m0) && ListsOk(lists, temporalMap)
      ensures timeline == kept + all[k..] && (forall j :: 0 <= j < |timeline| ==> timeline[j] in all)
      ensures Reduced(m0, lists0, tails0, temporalMap, lists, tailHandleMap, done)
      ensures Relation() == Pairs(temporalMap)
    {
      hide Valid, Reduced, ListsOk;
      Parts();
      MembersIn(kept, all, k);
      forall j | 0 <= j < |timeline| ensures timeline[j] in all {
      }
    }

    /** Removes the time of the next cell. */
    method TakeNext(t: Time, ghost all: seq<TemporalEntry>, ghost k: nat, ghost kept: seq<TemporalEntry>,
                    ghost m0: map<Time, set<Handle>>, ghost lists0: map<Handle, seq<TemporalEntry>>,
                    ghost tails0: map<Handle, TemporalEntry>, ghost done: set<Time>)
      requires Underway(all, k, kept, m0, lists0, tails0, done) && k < |all| && all[k].time == t
      requires forall d :: d in done ==> Rank(d) < Rank(t)
      modifies this, temporalIndexTable, timeline, cells
      ensures Underway(all, k + 1, kept, m0, lists0, tails0, done + {t}) && cells == old(cells)
      ensures forall j :: 0 <= j < |timeline| ==> timeline[j] in old(timeline)
      ensures temporalIndexTable == old(temporalIndexTable) || fresh(temporalIndexTable)
    {
      hide *;
      UnderwayParts(all, k, kept, m0, lists0, tails0, done);
      UnderwayKept(all, k, kept, m0, lists0, tails0, done);
      MiddleCell(kept, all, k);
      ghost var q, was := |kept|, timeline;
      RemovedMiddle(kept, all[k], all[k + 1..]);
      CellsStay(timeline, q);
      RemoveNext(m0, lists0, tails0, done, t, q);
      UnderwayAgain(all, k + 1, kept, m0, lists0, tails0, done + {t});
    }

    lemma UnderwayKept(all: seq<TemporalEntry>, k: nat, kept: seq<TemporalEntry>, m0: map<Time, set<Handle>>,
                       lists0: map<Handle, seq<TemporalEntry>>, tails0: map<Handle, TemporalEntry>, done: set<Time>)
      requires Underway(all, k, kept, m0, lists0, tails0, done)
      ensures forall j :: 0 <= j < |kept| ==> kept[j] in all
    {
      hide Valid, Reduced, ListsOk;
    }

    /** What a removal for all handles comes to. */
    lemma Reduction(m0: map<Time, set<Handle>>, lists0: map<Handle, seq<TemporalEntry>>,
                    tails0: map<Handle, TemporalEntry>, t: Temporal, c: TemporalRelationship)
      requires t.Proper() || t == UNDEFINED_TEMPORAL
      requires ListsOk(lists0, m0) && ListsOk(lists, temporalMap)
      requires Reduced(m0, lists0, tails0, temporalMap, lists, tailHandleMap, Selected(AllTimes(Pairs(m0)), t, c))
      ensures Pairs(temporalMap) == Pairs(m0) - Gone(Pairs(m0), UNDEFINED_HANDLE, t, c)
      ensures TailsSoundOf(tails0, lists0) ==>
        && TailsSound()
        && TailsFollow(Pairs(m0), RightTailsOf(tails0, lists0), LostTailsOf(tails0, lists0), UNDEFINED_HANDLE, t, c,
                       RightTails(), LostTails())
    {
      hide *;
      ReducedDone(m0, lists0, tails0, temporalMap, lists, tailHandleMap, t, c);
      if TailsSoundOf(tails0, lists0) {
        TailsFollowed(tails0, lists0, m0, tailHandleMap, lists, temporalMap, UNDEFINED_HANDLE, t, c);
      }
      TailsMean();
    }

    /** Removes the pairs at exactly one time. */
    method RemoveExact(t: Time) returns (result: bool)
      requires Valid() && t != UNDEFINED_TEMPORAL
      modifies this, temporalIndexTable, timeline, cells
      ensures Valid()
      ensures result <==> Gone(old(Relation()), UNDEFINED_HANDLE, t, EXACT) != {}
      ensures Relation() == old(Relation()) - Gone(old(Relation()), UNDEFINED_HANDLE, t, EXACT)
      ensures old(TailsSound()) ==>
        && TailsSound()
        && TailsFollow(old(Relation()), old(RightTails()), old(LostTails()), UNDEFINED_HANDLE, t, EXACT,
                       RightTails(), LostTails())
      ensures cells == old(cells) && forall k :: 0 <= k < |timeline| ==> timeline[k] in old(timeline)
      ensures temporalIndexTable == old(temporalIndexTable) || fresh(temporalIndexTable)
    {
      hide *;
      ghost var m0, lists0, tails0, all, done := temporalMap, lists, tailHandleMap, timeline, {};
      UnderwayBegins();
      TailsMean();
      UnderwayParts(all, 0, [], m0, lists0, tails0, {});
      Parts();
      ExactTime(lists, m0, t);
      GoneNothing(Pairs(m0), t, EXACT);
      result := t in temporalMap;
      if result {
        ghost var q := PlaceOf(all, m0, t);
        RemoveNext(m0, lists0, tails0, {}, t, q);
        CellsStay(all, q);
        done := {t};
        assert {} + {t} == done;
      }
      Parts();
      Reduction(m0, lists0, tails0, t, EXACT);
    }

    /** Removes the pairs at all times that the scan of the list of all times matches, or at the last of
        them for the criteria that want the previous time. A removal without a time takes all. */
    method RemoveScanning(t: Temporal, criterion: TemporalRelationship) returns (result: bool)
      requires Valid() && (t.Proper() || t == UNDEFINED_TEMPORAL)
      modifies this, temporalIndexTable, timeline, cells
      ensures Valid()
      ensures result <==> Gone(old(Relation()), UNDEFINED_HANDLE, t, criterion) != {}
      ensures Relation() == old(Relation()) - Gone(old(Relation()), UNDEFINED_HANDLE, t, criterion)
      ensures old(TailsSound()) ==>
        && TailsSound()
        && TailsFollow(old(Relation()), old(RightTails()), old(LostTails()), UNDEFINED_HANDLE, t, criterion,
                       RightTails(), LostTails())
      ensures cells == old(cells) && forall k :: 0 <= k < |timeline| ==> timeline[k] in old(timeline)
      ensures temporalIndexTable == old(temporalIndexTable) || fresh(temporalIndexTable)
    {
      hide *;
      ghost var m0, lists0, tails0, all := temporalMap, lists, tailHandleMap, timeline;
      ghost var ts := Times(all);
      TimelineTimes();
      UnderwayBegins();
      TailsMean();
      SweepBegins(ts, t, criterion);
      GoneNothing(Pairs(m0), t, criterion);
      var te, previousTime: TemporalEntry? := sortedTemporalList, null;
      var searchFinished := false;
      result := false;
      ghost var k, p, done := 0, -1, {};
      ghost var kept: seq<TemporalEntry> := [];
      while te != null && !searchFinished
        invariant k <= |all| && -1 <= p < k
        invariant te == if k < |all| then all[k] else null
        invariant previousTime == if p >= 0 then all[p] else null
        invariant Underway(all, k, kept, m0, lists0, tails0, done) && cells == old(cells)
        invariant OnlyRemembers(t, criterion) ==> kept == all[..k]
        invariant Sweeping(ts, k, searchFinished, t, criterion, p, done, result)
        invariant forall j :: 0 <= j < |timeline| ==> timeline[j] in all
        invariant temporalIndexTable == old(temporalIndexTable) || fresh(temporalIndexTable)
        decreases |all| - k
      {
        var x: TemporalEntry := te;
        UnderwayNext(all, k, kept, m0, lists0, tails0, done);
        te := te.next;
        var matches;
        matches, searchFinished := MatchesQuery(x.time, t, criterion);
        SweepStep(ts, k, searchFinished, t, criterion, p, done, result);
        if matches {
          result := true;
          if OnlyRemembers(t, criterion) {
            previousTime := x;
            p, kept := k, kept + [x];
          } else {
            TakeNext(x.time, all, k, kept, m0, lists0, tails0, done);
            done := done + {x.time};
          }
        } else {
          kept := kept + [x];
        }
        k := k + 1;
      }
      SweepDone(ts, k, searchFinished, t, criterion, p, done, result);
      TakeRemembered(previousTime, all, k, kept, m0, lists0, tails0, done, p);
      Reduction(m0, lists0, tails0, t, criterion);
    }

    /** Removes the remembered time, if there is one. */
    method TakeRemembered(previousTime: TemporalEntry?, ghost all: seq<TemporalEntry>, ghost k: nat,
                          ghost kept: seq<TemporalEntry>, ghost m0: map<Time, set<Handle>>,
                          ghost lists0: map<Handle, seq<TemporalEntry>>, ghost tails0: map<Handle, TemporalEntry>,
                          ghost done: set<Time>, ghost p: int)
      requires Underway(all, k, kept, m0, lists0, tails0, done)
      requires previousTime != null ==> 0 <= p < k <= |all| && previousTime == all[p] && kept == all[..k] && done == {}
      modifies this, temporalIndexTable, timeline, cells
      ensures Valid() && cells == old(cells) && ListsOk(lists0, m0) && ListsOk(lists, temporalMap)
      ensures Reduced(m0, lists0, tails0, temporalMap, lists, tailHandleMap,
                      if previousTime != null then {previousTime.time} else done)
      ensures Relation() == Pairs(temporalMap)
      ensures forall j :: 0 <= j < |timeline| ==> timeline[j] in all
      ensures temporalIndexTable == old(temporalIndexTable) || fresh(temporalIndexTable)
    {
      hide *;
      UnderwayParts(all, k, kept, m0, lists0, tails0, done);
      if previousTime != null {
        assert all[..k] + all[k..] == all;
        RemoveNext(m0, lists0, tails0, done, previousTime.time, p);
        CellsStay(all, p);
        assert {} + {previousTime.time} == {previousTime.time};
      }
      Parts();
    }

    /** Removes the pairs at all overlapping times: finds the end of the candidates from the cell the
        index table proposes, and goes through the list of all times up to there. */
    method RemoveOverlapping(t: Time) returns (result: bool)
      requires Valid() && t != UNDEFINED_TEMPORAL
      modifies this, temporalIndexTable, timeline, cells
      ensures Valid()
      ensures result <==> Gone(old(Relation()), UNDEFINED_HANDLE, t, OVERLAPS) != {}
      ensures Relation() == old(Relation()) - Gone(old(Relation()), UNDEFINED_HANDLE, t, OVERLAPS)
      ensures old(TailsSound()) ==>
        && TailsSound()
        && TailsFollow(old(Relation()), old(RightTails()), old(LostTails()), UNDEFINED_HANDLE, t, OVERLAPS,
                       RightTails(), LostTails())
      ensures cells == old(cells) && forall k :: 0 <= k < |timeline| ==> timeline[k] in old(timeline)
      ensures temporalIndexTable == old(temporalIndexTable) || fresh(temporalIndexTable)
    {
      hide *;
      ghost var m0, lists0, tails0, all := temporalMap, lists, tailHandleMap, timeline;
      ghost var ts := Times(all);
      TimelineTimes();
      UnderwayBegins();
      TailsMean();
      OverlapsBegin(ts, t);
      GoneNothing(Pairs(m0), t, OVERLAPS);
      result := false;
      ghost var k, limit, done := 0, 0, {};
      ghost var kept: seq<TemporalEntry> := [];
      if sortedTemporalList != null {
        var upperLimitEntry;
        upperLimitEntry, limit := UpperLimit(t);
        TimelineDistinct();
        var currentEntry := sortedTemporalList;
        OverlapsSelected(ts, limit, t);
        while currentEntry != upperLimitEntry
          invariant k <= limit && currentEntry == if k < |all| then all[k] else null
          invariant Underway(all, k, kept, m0, lists0, tails0, done) && cells == old(cells)
          invariant done == Matched(ts[..k], t, OVERLAPS) && (result <==> done != {})
          invariant forall j :: 0 <= j < |timeline| ==> timeline[j] in all
          invariant temporalIndexTable == old(temporalIndexTable) || fresh(temporalIndexTable)
          decreases limit - k
        {
          var x: TemporalEntry := currentEntry;
          UnderwayNext(all, k, kept, m0, lists0, tails0, done);
          OverlapsNext(ts, k, t);
          currentEntry := currentEntry.next;
          var upper := GetUpperBound(x.time);
          var lower := GetLowerBound(t);
          if upper >= lower {
            result := true;
            TakeNext(x.time, all, k, kept, m0, lists0, tails0, done);
            done := done + {x.time};
          } else {
            kept := kept + [x];
          }
          k := k + 1;
        }
        SamePlace(all, k, limit);
      } else {
        OverlapsSelected(ts, 0, t);
      }
      UnderwayParts(all, k, kept, m0, lists0, tails0, done);
      Reduction(m0, lists0, tails0, t, OVERLAPS);
    }

    lemma TimelineDistinct()
      requires Valid()
      ensures Distinct(timeline)
    {
      hide *;
      Parts();
      AscendingDistinct(timeline);
    }

    /** Removes pairs of all handles: without a time all of them, else by the criterion. */
    method RemoveForAll(t: Temporal, criterion: TemporalRelationship) returns (result: bool)
      requires Valid() && (t.Proper() || t == UNDEFINED_TEMPORAL)
      modifies this, temporalIndexTable, timeline, cells
      ensures Valid()
      ensures result <==> Gone(old(Relation()), UNDEFINED_HANDLE, t, criterion) != {}
      ensures Relation() == old(Relation()) - Gone(old(Relation()), UNDEFINED_HANDLE, t, criterion)
      ensures old(TailsSound()) ==>
        && TailsSound()
        && TailsFollow(old(Relation()), old(RightTails()), old(LostTails()), UNDEFINED_HANDLE, t, criterion,
                       RightTails(), LostTails())
      ensures cells == old(cells) && forall k :: 0 <= k < |timeline| ==> timeline[k] in old(timeline)
      ensures temporalIndexTable == old(temporalIndexTable) || fresh(temporalIndexTable)
    {
      hide *;
      if t == UNDEFINED_TEMPORAL {
        result := RemoveScanning(t, criterion);
      } else {
        match criterion {
          case EXACT => result := RemoveExact(t);
          case OVERLAPS => result := RemoveOverlapping(t);
          case _ => result := RemoveScanning(t, criterion);
        }
      }
    }

    /** Removes the pairs that a search with the same arguments finds, of one handle or of all. The right tail
        pointers stay right, go with the last pair of their handle, or are stranded. */
    method Remove(h: Handle, t: Temporal, criterion: TemporalRelationship) returns (result: bool)
      requires Valid() && (t.Proper() || t == UNDEFINED_TEMPORAL)
      modifies this, temporalIndexTable, timeline, cells
      ensures Valid()
      ensures result <==> Gone(old(Relation()), h, t, criterion) != {}
      ensures Relation() == old(Relation()) - Gone(old(Relation()), h, t, criterion)
      ensures old(TailsSound()) ==>
        && TailsSound()
        && TailsFollow(old(Relation()), old(RightTails()), old(LostTails()), h, t, criterion, RightTails(), LostTails())
      ensures cells == old(cells) && forall k :: 0 <= k < |timeline| ==> timeline[k] in old(timeline)
      ensures temporalIndexTable == old(temporalIndexTable) || fresh(temporalIndexTable)
    {
      hide *;
      if h == UNDEFINED_HANDLE {
        result := RemoveForAll(t, criterion);
      } else {
        result := RemoveForHandle(h, t, criterion);
      }
    }

    // ------------------------------------------------------- search

    /** Searches the list of a handle. */
    method GetForHandle(h: Handle, t: Temporal, criterion: TemporalRelationship) returns (result: Answer)
      requires Valid() && (t.Proper() || t == UNDEFINED_TEMPORAL)
      ensures Lists(result, PairsWith(h, Selected(TimesOf(Relation(), h), t, criterion)))
    {
      hide *;
      ghost var nodes := CellsOf(lists, h);
      ghost var ts := Times(nodes);
      HandleTimes(h);
      var te := EntryOf(handleMap, h);
      result := [];
      ghost var k, p := 0, -1;
      var searchFinished := false;
      AnswerStart(h, ts, t, criterion);
      while te != null && !searchFinished
        invariant k <= |nodes|
        invariant te == if k < |nodes| then nodes[k] else null
        invariant Answering(result, h, ts, k, searchFinished, t, criterion, p)
        decreases |nodes| - k
      {
        var matches;
        matches, searchFinished := MatchesQuery(te.time, t, criterion);
        AnswerStep(result, h, ts, k, searchFinished, t, criterion, p);
        if matches {
          if OnlyRemembers(t, criterion) {
            result := [(h, te.time)];
            p := k;
          } else {
            result := result + [(h, te.time)];
          }
        }
        te := te.next;
        k := k + 1;
      }
      AnswerDone(result, h, ts, k, searchFinished, t, criterion, p);
    }

    lemma HandleTimes(h: Handle)
      requires Valid()
      ensures var nodes := CellsOf(lists, h);
        && Increasing(Times(nodes)) && TimeSet(Times(nodes)) == TimesOf(Relation(), h)
        && EntryOf(handleMap, h) == (if nodes == [] then null else nodes[0])
        && forall k {:trigger nodes[k].next} :: 0 <= k < |nodes| ==>
             nodes[k].next == if k + 1 < |nodes| then nodes[k + 1] else null
    {
      hide Rank, IndexOk, KeysOk, ListsOk, Ascending, Pairs, TimesOf, TimeSet, Increasing;
      ListTimeSet(lists, temporalMap, h);
    }

    /** Scans the list of all times. */
    method GetScanning(t: Temporal, criterion: TemporalRelationship) returns (result: Answer)
      requires Valid() && (t.Proper() || t == UNDEFINED_TEMPORAL)
      ensures Lists(result, PairsAt(Relation(), Selected(AllTimes(Relation()), t, criterion)))
    {
      hide *;
      ghost var ts := Times(timeline);
      TimelineTimes();
      var te := sortedTemporalList;
      var previousTime: TemporalEntry? := null;
      result := [];
      ghost var k, p := 0, -1;
      var searchFinished := false;
      AnswerAllStart(temporalMap, ts, t, criterion);
      while te != null && !searchFinished
        invariant k <= |timeline| && -1 <= p < k
        invariant te == if k < |timeline| then timeline[k] else null
        invariant previousTime == if p >= 0 then timeline[p] else null
        invariant AnsweringAll(result, temporalMap, ts, k, searchFinished, t, criterion, p)
        decreases |timeline| - k
      {
        var matches;
        matches, searchFinished := MatchesQuery(te.time, t, criterion);
        if matches && !OnlyRemembers(t, criterion) {
          var more := ListHandles(temporalMap[te.time], te.time);
          AnswerAllStep(result, more, temporalMap, ts, k, searchFinished, t, criterion, p);
          result := result + more;
        } else {
          AnswerAllStep(result, [], temporalMap, ts, k, searchFinished, t, criterion, p);
          if matches {
            previousTime := te;
            p := k;
          }
        }
        te := te.next;
        k := k + 1;
      }
      if previousTime != null {
        var more := ListHandles(temporalMap[previousTime.time], previousTime.time);
        AnswerAllDone(result, more, temporalMap, ts, k, searchFinished, t, criterion, p);
        result := result + more;
      } else {
        AnswerAllDone(result, [], temporalMap, ts, k, searchFinished, t, criterion, p);
      }
    }

    lemma TimelineTimes()
      requires Valid()
      ensures Relation() == Pairs(temporalMap)
      ensures Increasing(Times(timeline)) && TimeSet(Times(timeline)) == AllTimes(Relation())
      ensures sortedTemporalList == if timeline == [] then null else timeline[0]
      ensures forall k :: 0 <= k < |timeline| ==> timeline[k].time in temporalMap
      ensures forall k {:trigger timeline[k].next} :: 0 <= k < |timeline| ==>
        timeline[k].next == if k + 1 < |timeline| then timeline[k + 1] else null
    {
      hide Rank, IndexOk, KeysOk, ListOk, Ascending, Pairs, AllTimes, TimeSet, Increasing, NoEmptySets;
      KeyTimes(timeline, temporalMap);
    }

    /** Looks the time up in the map, and its own copy of the time in the list of the first handle. */
    method GetExact(t: Time) returns (result: Answer)
      requires Valid() && t != UNDEFINED_TEMPORAL
      ensures Lists(result, PairsAt(Relation(), Selected(AllTimes(Relation()), t, EXACT)))
    {
      hide *;
      ExactTimes(t);
      result := [];
      var hs := HandlesAt(temporalMap, t);
      var rest := hs;
      var time: TemporalEntry? := null;
      NoHandlePairs(t);
      assert hs - rest == {};
      while rest != {}
        invariant rest <= hs
        invariant time != null ==> time.time == t
        invariant Lists(result, HandlePairs(hs - rest, t))
        decreases rest
      {
        var handle :| handle in rest;
        if time == null {
          time := FindCell(handle, t);
        }
        ListsPrepend(result, hs - rest, handle, t);
        assert hs - rest + {handle} == hs - (rest - {handle});
        rest := rest - {handle};
        result := [(handle, time.time)] + result;
      }
      assert hs - rest == hs;
    }

    lemma ExactTimes(t: Time)
      requires Valid() && t != UNDEFINED_TEMPORAL
      ensures PairsAt(Relation(), Selected(AllTimes(Relation()), t, EXACT)) ==
        HandlePairs(HandlesAt(temporalMap, t), t)
      ensures forall g :: g in HandlesAt(temporalMap, t) ==> Related(temporalMap, g, t)
    {
      hide Rank, IndexOk, KeysOk, ListOk, Ascending, Pairs, AllTimes, Selected, NoEmptySets;
      ExactSelected(temporalMap, t);
    }

    /** The list of a related handle holds the time, so the search cannot run off its end. */
    method FindCell(h: Handle, t: Time) returns (cell: TemporalEntry)
      requires Valid() && Related(temporalMap, h, t)
      ensures cell.time == t
    {
      hide *;
      ghost var nodes := CellsOf(lists, h);
      HandleTimes(h);
      ghost var at := CellPlace(h, t);
      var te := EntryOf(handleMap, h);
      ghost var k := 0;
      while Compare(t, te.time) != 0
        invariant k <= at && te == nodes[k]
        decreases at - k
      {
        te := te.next;
        k := k + 1;
      }
      cell := te;
    }

    lemma CellPlace(h: Handle, t: Time) returns (k: nat)
      requires Valid() && Related(temporalMap, h, t)
      ensures k < |CellsOf(lists, h)| && CellsOf(lists, h)[k].time == t
    {
      hide Rank, IndexOk, KeysOk, ListsOk, Ascending;
      HandleList(lists, temporalMap, h);
      k :| 0 <= k < |CellsOf(lists, h)| && CellsOf(lists, h)[k].time == t;
    }

    /** Finds the end of the candidates from the cell the index table proposes, and filters the list of
        all times up to there. */
    method GetOverlapping(t: Time) returns (result: Answer)
      requires Valid() && t != UNDEFINED_TEMPORAL
      ensures Lists(result, PairsAt(Relation(), Selected(AllTimes(Relation()), t, OVERLAPS)))
    {
      hide *;
      ghost var ts := Times(timeline);
      TimelineTimes();
      result := [];
      ListsOverlapsStart(temporalMap, ts, t);
      if sortedTemporalList != null {
        var upperLimitEntry;
        ghost var limit;
        upperLimitEntry, limit := UpperLimit(t);
        OverlapsSelected(ts, limit, t);
        var currentEntry := sortedTemporalList;
        ghost var k := 0;
        while currentEntry != upperLimitEntry
          invariant k <= limit
          invariant currentEntry == if k < |timeline| then timeline[k] else null
          invariant ListsOverlaps(result, temporalMap, ts, k, t)
          decreases limit - k
        {
          var more := [];
          var upper := GetUpperBound(currentEntry.time);
          var lower := GetLowerBound(t);
          if upper >= lower {
            more := ListHandles(temporalMap[currentEntry.time], currentEntry.time);
          }
          ListsOverlapsStep(result, more, temporalMap, ts, k, t);
          result := result + more;
          currentEntry := currentEntry.next;
          k := k + 1;
        }
        CellsDiffer(k, limit);
        ListsOverlapsEnd(result, temporalMap, ts, limit, t);
      } else {
        OverlapsSelected(ts, 0, t);
        ListsOverlapsEnd(result, temporalMap, ts, 0, t);
      }
    }

    lemma CellsDiffer(k: nat, limit: nat)
      requires Valid() && k <= limit <= |timeline|
      requires limit == |timeline| ==> k == limit
      ensures k < limit ==> timeline[k] != timeline[limit]
    {
      hide Rank, IndexOk, KeysOk, ListsOk;
      AscendingDistinct(timeline);
    }

    /** The first cell that starts too late to overlap `t`, or null. */
    method UpperLimit(t: Time) returns (upperLimitEntry: TemporalEntry?, ghost limit: nat)
      requires Valid() && timeline != []
      ensures limit <= |timeline|
      ensures upperLimitEntry == if limit < |timeline| then timeline[limit] else null
      ensures forall i :: 0 <= i < limit ==> Lo(timeline[i].time) <= Hi(t)
      ensures forall i :: limit <= i < |timeline| ==> Lo(timeline[i].time) > Hi(t)
    {
      hide *;
      TimelineTimes();
      SearchReady();
      upperLimitEntry := GetPreviousTemporalEntry(t);
      limit := 0;
      if upperLimitEntry == null {
        upperLimitEntry := sortedTemporalList;
      } else {
        limit := StartPlace(upperLimitEntry, t);
      }
      var last := GetUpperBound(t);
      while upperLimitEntry != null
        invariant limit <= |timeline|
        invariant upperLimitEntry == if limit < |timeline| then timeline[limit] else null
        invariant forall i :: 0 <= i < limit ==> Lo(timeline[i].time) <= Hi(t)
        decreases |timeline| - limit
      {
        var lower := GetLowerBound(upperLimitEntry.time);
        if lower > last {
          LaterStart(limit, t);
          return;
        }
        upperLimitEntry := upperLimitEntry.next;
        limit := limit + 1;
      }
    }

    lemma SearchReady()
      requires Valid() && timeline != []
      ensures IndexHeap() && NonDecreasing(idx) && PointsInto(idx, timeline) && indexTableCount > 0
    {
      hide Rank, IndexOk, KeysOk, ListsOk, Ascending;
      IndexReady(timeline, idx, pendingUpdateCount);
    }

    lemma StartPlace(e: TemporalEntry, t: Time) returns (k: nat)
      requires Valid() && e in idx && Rank(e.time) <= Rank(t)
      ensures k < |timeline| && timeline[k] == e
      ensures forall i :: 0 <= i < k ==> Lo(timeline[i].time) <= Hi(t)
    {
      hide Rank, Lo, Hi, KeysOk, ListsOk;
      var j :| 0 <= j < |idx| && idx[j] == e;
      assert idx[j] in timeline;
      k :| 0 <= k < |timeline| && timeline[k] == e;
      forall i | 0 <= i < k ensures Lo(timeline[i].time) <= Hi(t) {
        StartsEarlyEnough(timeline[i].time, e.time, t);
      }
    }

    lemma LaterStart(k: nat, t: Time)
      requires Valid() && k < |timeline| && Lo(timeline[k].time) > Hi(t)
      ensures forall i :: k <= i < |timeline| ==> Lo(timeline[i].time) > Hi(t)
    {
      hide Rank, Lo, Hi, KeysOk, ListsOk, IndexOk;
      forall i | k < i < |timeline| ensures Lo(timeline[i].time) > Hi(t) {
        if Lo(timeline[i].time) <= Hi(t) {
          StartsEarlyEnough(timeline[k].time, timeline[i].time, t);
        }
      }
    }

    /** Searches the pairs of a handle, or of all handles. */
    method Get(h: Handle, t: Temporal, criterion: TemporalRelationship) returns (result: Answer)
      requires Valid() && (t.Proper() || t == UNDEFINED_TEMPORAL)
      ensures Lists(result,
        if h == UNDEFINED_HANDLE then PairsAt(Relation(), Selected(AllTimes(Relation()), t, criterion))
        else PairsWith(h, Selected(TimesOf(Relation(), h), t, criterion)))
    {
      hide *;
      if h != UNDEFINED_HANDLE {
        result := GetForHandle(h, t, criterion);
      } else if t == UNDEFINED_TEMPORAL {
        result := GetScanning(t, criterion);
      } else {
        match criterion {
          case EXACT => result := GetExact(t);
          case OVERLAPS => result := GetOverlapping(t);
          case _ => result := GetScanning(t, criterion);
        }
      }
    }
  }
}
