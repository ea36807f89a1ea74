/** Steps of the table operations, on the lists and maps they work on
    (opencog/atomspace/TemporalTable.cc). */
module TemporalSteps {
  import opened Temporals
  import opened TemporalEntries
  import opened TemporalIndex
  import opened Handles
  import opened TemporalRelation
  import opened TemporalScan

  function EntryOf(m: map<Handle, TemporalEntry>, h: Handle): TemporalEntry? {
    if h in m then m[h] else null
  }

  lemma SingleRemoved(m: map<Time, set<Handle>>, m': map<Time, set<Handle>>, h: Handle, t: Time)
    requires Pairs(m') == Pairs(m) - {(h, t)}
    ensures LostPairs(m, m', h, {t})
  {
    hide Rank, Pairs;
    assert PairsWith(h, {t}) == {(h, t)};
  }

  lemma RemovalPairs(m: map<Time, set<Handle>>, m1: map<Time, set<Handle>>, m': map<Time, set<Handle>>, h: Handle,
                     chosen: set<Time>)
    requires LostPairs(m, m1, h, chosen) || Pairs(m1) == Pairs(m)
    requires LostPairs(m, m1, h, chosen) ==> m' == m1 || LostPairs(m1, m', h, chosen)
    requires !LostPairs(m, m1, h, chosen) ==> LostPairs(m1, m', h, chosen)
    ensures Pairs(m') == Pairs(m) - PairsWith(h, chosen)
  {
    hide Rank, Pairs, PairsWith;
  }

  lemma NothingRemoved(m: map<Time, set<Handle>>, m': map<Time, set<Handle>>, h: Handle)
    requires Pairs(m') == Pairs(m)
    ensures LostPairs(m, m', h, {})
  {
    hide Rank, Pairs;
    assert PairsWith(h, {}) == {};
  }

  ghost predicate HeadsPointBut(heads: map<Handle, TemporalEntry>, lists: map<Handle, seq<TemporalEntry>>, h: Handle) {
    && heads.Keys - {h} == lists.Keys - {h}
    && forall g :: g in lists && g != h ==> lists[g] != [] && g in heads && heads[g] == lists[g][0]
  }

  lemma DroppedCells(lists: map<Handle, seq<TemporalEntry>>, h: Handle,
                     kept: seq<TemporalEntry>, x: TemporalEntry, rest: seq<TemporalEntry>)
    requires CellsOf(lists, h) == kept + [x] + rest && Ascending(CellsOf(lists, h))
    ensures Without(CellsOf(lists, h), x.time) == kept + rest
    ensures CellsOf(WithCells(lists, h, Without(CellsOf(lists, h), x.time)), h) == kept + rest
    ensures forall heads :: HeadsPointBut(heads, lists, h) ==>
      HeadsPointBut(heads, WithCells(lists, h, Without(CellsOf(lists, h), x.time)), h)
  {
    hide Rank, Without, Ascending;
    WithoutMiddle(kept, x, rest);
    var r := Without(CellsOf(lists, h), x.time);
    var lists' := WithCells(lists, h, r);
    assert lists'.Keys - {h} == lists.Keys - {h};
  }

  ghost function HeadOf(nodes: seq<TemporalEntry>): TemporalEntry? {
    if nodes == [] then null else nodes[0]
  }

  lemma PlaceOf(nodes: seq<TemporalEntry>, m: map<Time, set<Handle>>, t: Time) returns (q: nat)
    requires KeysOk(nodes, m) && Ascending(nodes) && t in m
    ensures q < |nodes| && nodes[q].time == t
    ensures |m| == |nodes| && |m - {t}| == |nodes| - 1
  {
    hide Rank;
    KeysSize(nodes, m.Keys);
    assert HasTime(nodes, t);
    q :| 0 <= q < |nodes| && nodes[q].time == t;
    assert (m - {t}).Keys == m.Keys - {t};
  }

  lemma TimeGone(nodes: seq<TemporalEntry>, m: map<Time, set<Handle>>, q: nat)
    requires KeysOk(nodes, m) && Ascending(nodes) && q < |nodes|
    ensures KeysOk(RemoveAt(nodes, q), m - {nodes[q].time})
    ensures Times(RemoveAt(nodes, q)) == DeleteTime(Times(nodes), nodes[q].time)
    ensures forall k :: 0 <= k < |RemoveAt(nodes, q)| ==> RemoveAt(nodes, q)[k] in nodes
  {
    hide *;
    KeyGone(nodes, m, q);
    TimesGone(nodes, q);
    CellsStay(nodes, q);
  }

  lemma KeyGone(nodes: seq<TemporalEntry>, m: map<Time, set<Handle>>, q: nat)
    requires KeysOk(nodes, m) && Ascending(nodes) && q < |nodes|
    ensures KeysOk(RemoveAt(nodes, q), m - {nodes[q].time})
  {
    hide Rank, HasTime, RemoveAt, Ascending;
    HasTimeRemoved(nodes, q);
  }

  lemma TimesGone(nodes: seq<TemporalEntry>, q: nat)
    requires Ascending(nodes) && q < |nodes|
    ensures Times(RemoveAt(nodes, q)) == DeleteTime(Times(nodes), nodes[q].time)
  {
    hide Rank, Ascending, Without, DeleteTime, Times;
    assert nodes == nodes[..q] + [nodes[q]] + nodes[q + 1..];
    WithoutMiddle(nodes[..q], nodes[q], nodes[q + 1..]);
    WithoutIsDeleteTime(nodes, nodes[q].time);
  }

  lemma CellsStay(nodes: seq<TemporalEntry>, q: nat)
    requires q < |nodes|
    ensures forall k :: 0 <= k < |RemoveAt(nodes, q)| ==> RemoveAt(nodes, q)[k] in nodes
  {
  }

  lemma SameKeys(nodes: seq<TemporalEntry>, m: map<Time, set<Handle>>, m': map<Time, set<Handle>>)
    requires KeysOk(nodes, m) && m'.Keys == m.Keys
    ensures KeysOk(nodes, m')
  {
    hide Rank;
  }

  lemma IndexParts(timeline: seq<TemporalEntry>, idx: seq<TemporalEntry>, pending: int)
    requires IndexOk(timeline, idx, pending)
    ensures PointsInto(idx, timeline) && NonDecreasing(idx)
  {
    hide Rank;
  }

  /** What entering `t` into the list of all times and (h, t) into the map has to do with each other. */
  lemma AddedTime(before: seq<TemporalEntry>, after: seq<TemporalEntry>, p: nat,
                  m: map<Time, set<Handle>>, h: Handle, t: Time)
    requires Ascending(before) && KeysOk(before, m)
    requires HasTime(before, t) ==> after == before
    requires !HasTime(before, t) ==> InsertedAt(before, after, p, t)
    ensures var m' := m[t := HandlesAt(m, t) + {h}];
      && KeysOk(after, m') && |m'| == |after| && |m| == |before|
      && (|m'| != |m| <==> !HasTime(before, t))
    ensures Times(after) == InsertTime(Times(before), t)
    ensures forall k :: 0 <= k < |after| ==>
      after[k] in before || (!HasTime(before, t) && p < |after| && after[k] == after[p])
  {
    hide Rank;
    var m' := m[t := HandlesAt(m, t) + {h}];
    KeysSize(before, m.Keys);
    if HasTime(before, t) {
      hide Ascending;
      assert m'.Keys == m.Keys;
      PresentInsertTime(before, t);
    } else {
      InsertedAtIsInsertTime(before, after, p, t);
      InsertedAtAscending(before, after, p, t);
      HasTimeInserted(before, after, p, t);
      NewCell(before, after, p, t);
      hide InsertedAt, HasTime, Ascending;
      KeysSize(after, m'.Keys);
    }
  }

  lemma NewCell(nodes: seq<TemporalEntry>, r: seq<TemporalEntry>, p: nat, t: Time)
    requires InsertedAt(nodes, r, p, t)
    ensures forall k :: 0 <= k < |r| ==> r[k] in nodes || r[k] == r[p]
  {
    hide Rank;
    forall k | 0 <= k < |r| && k != p ensures r[k] in nodes {
      if k < p {
        assert r[k] == r[..p][k] == nodes[k];
      } else {
        assert r[k] == r[p + 1..][k - (p + 1)] == nodes[k - 1];
      }
    }
  }

  lemma PresentInsertTime(nodes: seq<TemporalEntry>, t: Time)
    requires Ascending(nodes) && HasTime(nodes, t)
    ensures InsertTime(Times(nodes), t) == Times(nodes)
  {
    hide Rank;
    var i :| 0 <= i < |nodes| && nodes[i].time == t;
    InsertTimePresent(Times(nodes), i, t);
  }

  lemma {:induction false} InsertTimePresent(ts: seq<Time>, i: nat, t: Time)
    requires i < |ts| && ts[i] == t
    requires forall k :: 0 <= k < i ==> Rank(ts[k]) < Rank(t)
    ensures InsertTime(ts, t) == ts
  {
    hide Rank;
    if i > 0 {
      InsertTimePresent(ts[1..], i - 1, t);
    }
  }

  /** No cell of a list of a handle belongs to the list of all times. */
  ghost predicate CellsOwned(cells: set<TemporalEntry>) {
    forall c :: c in cells ==> c.owner != Timeline
  }

  lemma OwnedCells(cells: set<TemporalEntry>, r: seq<TemporalEntry>, h: Handle)
    requires CellsOwned(cells) && forall k :: 0 <= k < |r| ==> r[k].owner == Of(h)
    ensures CellsOwned(cells + Cells(r))
  {
  }

  lemma CellsApart(cells: set<TemporalEntry>, timeline: seq<TemporalEntry>)
    requires CellsOwned(cells) && forall k :: 0 <= k < |timeline| ==> timeline[k].owner == Timeline
    ensures forall c :: c in cells ==> c !in timeline
  {
  }

  ghost predicate HeadsPoint(heads: map<Handle, TemporalEntry>, lists: map<Handle, seq<TemporalEntry>>) {
    && heads.Keys == lists.Keys
    && forall h :: h in lists ==> lists[h] != [] && heads[h] == lists[h][0]
  }

  /** The tail pointer of `h` points to the last cell of its list. */
  ghost predicate TailRight(tails: map<Handle, TemporalEntry>, lists: map<Handle, seq<TemporalEntry>>, h: Handle) {
    var nodes := CellsOf(lists, h);
    h in tails && nodes != [] && tails[h] == nodes[|nodes| - 1]
  }

  /** The tail pointer of `h` points to a cell that is not in its list. */
  ghost predicate TailLost(tails: map<Handle, TemporalEntry>, lists: map<Handle, seq<TemporalEntry>>, h: Handle) {
    h in tails && tails[h] !in CellsOf(lists, h)
  }

  ghost function RightTailsOf(tails: map<Handle, TemporalEntry>, lists: map<Handle, seq<TemporalEntry>>): set<Handle> {
    set h | h in tails && TailRight(tails, lists, h)
  }

  ghost function LostTailsOf(tails: map<Handle, TemporalEntry>, lists: map<Handle, seq<TemporalEntry>>): set<Handle> {
    set h | h in tails && TailLost(tails, lists, h)
  }

  /** Every tail pointer points to the last cell of its list, or to a cell outside of it. */
  ghost predicate TailsSoundOf(tails: map<Handle, TemporalEntry>, lists: map<Handle, seq<TemporalEntry>>) {
    forall h :: h in tails ==> TailRight(tails, lists, h) || TailLost(tails, lists, h)
  }

  /** The list of `h` has changed, and its tail pointer is right again; nothing else has changed. */
  ghost predicate TailSet(tails: map<Handle, TemporalEntry>, lists: map<Handle, seq<TemporalEntry>>, h: Handle,
                          tails': map<Handle, TemporalEntry>, lists': map<Handle, seq<TemporalEntry>>)
  {
    && TailRight(tails', lists', h) && (forall g :: g in tails' <==> g in tails || g == h)
    && (forall g :: g in tails && g != h ==> tails'[g] == tails[g] && CellsOf(lists', g) == CellsOf(lists, g))
  }

  lemma TailSetMeans(tails: map<Handle, TemporalEntry>, lists: map<Handle, seq<TemporalEntry>>, h: Handle,
                     tails': map<Handle, TemporalEntry>, lists': map<Handle, seq<TemporalEntry>>)
    requires TailSet(tails, lists, h, tails', lists')
    ensures RightTailsOf(tails', lists') == RightTailsOf(tails, lists) + {h}
    ensures LostTailsOf(tails', lists') == LostTailsOf(tails, lists) - {h}
    ensures TailsSoundOf(tails, lists) ==> TailsSoundOf(tails', lists')
  {
    forall g | g in tails && g != h
      ensures TailRight(tails', lists', g) <==> TailRight(tails, lists, g)
      ensures TailLost(tails', lists', g) <==> TailLost(tails, lists, g)
    {
    }
  }

  lemma SetTail(tails: map<Handle, TemporalEntry>, lists: map<Handle, seq<TemporalEntry>>, h: Handle,
                r: seq<TemporalEntry>, tail: TemporalEntry)
    requires r != [] && tail == r[|r| - 1]
    ensures TailSet(tails, lists, h, tails[h := tail], lists[h := r])
  {
  }

  /** Cells of different handles are different. */
  lemma OwnersDiffer(lists: map<Handle, seq<TemporalEntry>>, m: map<Time, set<Handle>>, h: Handle)
    requires ListsOk(lists, m)
    ensures forall g, k :: g in lists && g != h && 0 <= k < |lists[g]| ==> lists[g][k] !in CellsOf(lists, h)
  {
    hide Rank, Ascending, HasTime;
    assert ListOk(m, h, CellsOf(lists, h));
    forall g, k | g in lists && g != h && 0 <= k < |lists[g]| ensures lists[g][k] !in CellsOf(lists, h) {
      assert ListOk(m, g, CellsOf(lists, g));
    }
  }

  /** Enters `t` into a sorted list with an optional tail pointer: behind the tail when `t` comes
      after it, otherwise from the head. */
  method EnterTime(timeEntry: TemporalEntry?, tailTimeEntry: TemporalEntry?, t: Time,
                   ghost nodes: seq<TemporalEntry>, ghost owner: Owner)
    returns (head: TemporalEntry, tail: TemporalEntry, ghost r: seq<TemporalEntry>)
    requires Chain(timeEntry, nodes) && Ascending(nodes)
    requires forall k :: 0 <= k < |nodes| ==> nodes[k].owner == owner
    requires tailTimeEntry != null ==> nodes != [] && tailTimeEntry == nodes[|nodes| - 1]
    modifies nodes
    ensures Chain(head, r) && Entered(nodes, r, t, owner) && tail == r[|r| - 1]
    ensures forall k :: 0 <= k < |r| ==> r[k] in nodes || fresh(r[k])
  {
    hide Rank, Compare, HasTime, Ascending;
    if tailTimeEntry != null {
      if Compare(t, tailTimeEntry.time) > 0 {
        tail, r := AddToTail(timeEntry, tailTimeEntry, t, nodes, owner);
        head := timeEntry;
      } else {
        head, r := AddToList(timeEntry, t, nodes, owner);
        tail := tailTimeEntry;
      }
    } else {
      head, r := AddToList(timeEntry, t, nodes, owner);
      tail := Last(head, r);
    }
  }

  /** `r` is the sorted list `nodes` with `t` entered. */
  ghost predicate Entered(nodes: seq<TemporalEntry>, r: seq<TemporalEntry>, t: Time, owner: Owner) {
    && r != []
    && Ascending(r)
    && (forall k :: 0 <= k < |r| ==> r[k].owner == owner)
    && (forall u :: HasTime(r, u) <==> HasTime(nodes, u) || u == t)
  }

  lemma ListsOkEntered(lists: map<Handle, seq<TemporalEntry>>, m: map<Time, set<Handle>>, h: Handle, t: Time,
                       r: seq<TemporalEntry>)
    requires ListsOk(lists, m) && Entered(CellsOf(lists, h), r, t, Of(h))
    ensures ListsOk(lists[h := r], m[t := HandlesAt(m, t) + {h}])
  {
    hide Rank, ListsOk, HasTime, Ascending;
    ListsOkAdd(lists, m, h, t, r);
  }

  lemma HandleList(lists: map<Handle, seq<TemporalEntry>>, m: map<Time, set<Handle>>, h: Handle)
    requires ListsOk(lists, m)
    ensures var nodes := CellsOf(lists, h);
      Ascending(nodes) && forall k :: 0 <= k < |nodes| ==> nodes[k].owner == Of(h)
    ensures forall t :: HasTime(CellsOf(lists, h), t) <==> Related(m, h, t)
    ensures h in lists ==> lists[h] != []
  {
    hide Rank;
    assert ListOk(m, h, CellsOf(lists, h));
  }

  /** Enters `t` into a sorted list, from a cell that does not come after it. */
  method AddFrom(list: TemporalEntry?, entry: TemporalEntry, t: Time, ghost nodes: seq<TemporalEntry>, ghost k: nat,
                 ghost owner: Owner)
    returns (ghost r: seq<TemporalEntry>, ghost p: nat)
    requires Chain(list, nodes) && Ascending(nodes) && forall i :: 0 <= i < |nodes| ==> nodes[i].owner == owner
    requires k < |nodes| && nodes[k] == entry && Rank(entry.time) <= Rank(t)
    modifies nodes
    ensures Chain(list, r) && Ascending(r) && forall i :: 0 <= i < |r| ==> r[i].owner == owner
    ensures HasTime(nodes, t) ==> r == nodes
    ensures !HasTime(nodes, t) ==> InsertedAt(nodes, r, p, t) && fresh(r[p])
    ensures entry in r
  {
    hide Rank, InsertedAt, HasTime, Ascending;
    ghost var suffix := nodes[k..];
    ChainDrop(list, nodes, k);
    SuffixHasTime(nodes, k, t);
    AscendingDistinct(nodes);
    var head: TemporalEntry?;
    ghost var s, q;
    head, s, q := TemporalEntries.Add(entry, t, suffix, owner);
    PrefixChain(list, nodes, k, s);
    r := nodes[..k] + s;
    p := k + q;
    assert r[k] == entry;
    hide Chain;
    if !HasTime(nodes, t) {
      BehindInserted(nodes, k, s, q, t, owner);
    } else {
      assert r == nodes;
    }
  }

  method AddToList(list: TemporalEntry?, t: Time, ghost nodes: seq<TemporalEntry>, ghost owner: Owner)
    returns (head: TemporalEntry, ghost r: seq<TemporalEntry>)
    requires Chain(list, nodes) && Ascending(nodes)
    requires forall k :: 0 <= k < |nodes| ==> nodes[k].owner == owner
    modifies nodes
    ensures Chain(head, r) && Entered(nodes, r, t, owner)
    ensures forall k :: 0 <= k < |r| ==> r[k] in nodes || fresh(r[k])
    ensures nodes != [] && Rank(t) <= Rank(nodes[|nodes| - 1].time) ==> r[|r| - 1] == nodes[|nodes| - 1]
  {
    hide Rank;
    ghost var p;
    var first: TemporalEntry?;
    first, r, p := TemporalEntries.Add(list, t, nodes, owner);
    if HasTime(nodes, t) {
      HeadIsFirst(nodes, t);
    } else {
      InsertedEntered(nodes, r, p, t, owner);
    }
    head := first;
  }

  method AddToTail(list: TemporalEntry?, tail: TemporalEntry, t: Time,
                   ghost nodes: seq<TemporalEntry>, ghost owner: Owner)
    returns (newTail: TemporalEntry, ghost r: seq<TemporalEntry>)
    requires Chain(list, nodes) && Ascending(nodes)
    requires forall k :: 0 <= k < |nodes| ==> nodes[k].owner == owner
    requires nodes != [] && tail == nodes[|nodes| - 1] && Rank(tail.time) < Rank(t)
    modifies nodes
    ensures Chain(list, r) && Entered(nodes, r, t, owner)
    ensures forall k :: 0 <= k < |r| ==> r[k] in nodes || fresh(r[k])
    ensures newTail == r[|r| - 1]
  {
    hide Rank, HasTime, Ascending, InsertedAt, Entered;
    SingleTail(tail, t);
    ghost var n := |nodes| - 1;
    ChainDrop(list, nodes, n);
    assert nodes[n..] == [tail];
    AscendingDistinct(nodes);
    ghost var q, s;
    var first: TemporalEntry?;
    first, s, q := TemporalEntries.Add(tail, t, [tail], owner);
    newTail := Last(tail, s);
    PrefixChain(list, nodes, n, s);
    r := nodes[..n] + s;
    TailEntered(nodes, s, q, t, owner);
  }

  lemma SingleTail(tail: TemporalEntry, t: Time)
    requires Rank(tail.time) < Rank(t)
    ensures !HasTime([tail], t) && Ascending([tail])
  {
    hide Rank;
  }

  lemma InsertedEntered(nodes: seq<TemporalEntry>, r: seq<TemporalEntry>, p: nat, t: Time, owner: Owner)
    requires Ascending(nodes) && InsertedAt(nodes, r, p, t) && r[p].owner == owner
    requires forall k :: 0 <= k < |nodes| ==> nodes[k].owner == owner
    ensures Entered(nodes, r, t, owner)
    ensures forall k :: 0 <= k < |r| ==> r[k] in nodes || r[k] == r[p]
    ensures nodes != [] && Rank(t) <= Rank(nodes[|nodes| - 1].time) ==> r[|r| - 1] == nodes[|nodes| - 1]
  {
    hide Rank;
    InsertedAtAscending(nodes, r, p, t);
    InsertedOwners(nodes, r, p, t, owner);
    HasTimeInserted(nodes, r, p, t);
    forall k | 0 <= k < |r| ensures r[k] in nodes || r[k] == r[p] {
      if k < p {
        assert r[k] == r[..p][k] == nodes[k];
      } else if k > p {
        assert r[k] == r[p + 1..][k - (p + 1)] == nodes[k - 1];
      }
    }
    if nodes != [] && p < |nodes| {
      assert r[|r| - 1] == r[p + 1..][|nodes| - 1 - p] == nodes[|nodes| - 1];
    }
  }

  lemma TailEntered(nodes: seq<TemporalEntry>, s: seq<TemporalEntry>, q: nat, t: Time, owner: Owner)
    requires nodes != [] && Ascending(nodes) && Rank(nodes[|nodes| - 1].time) < Rank(t)
    requires InsertedAt([nodes[|nodes| - 1]], s, q, t) && s[q].owner == owner
    requires forall k :: 0 <= k < |nodes| ==> nodes[k].owner == owner
    ensures Entered(nodes, nodes[..|nodes| - 1] + s, t, owner)
    ensures s == [nodes[|nodes| - 1], s[q]] && q == 1
  {
    hide Rank;
    var n := |nodes| - 1;
    assert nodes[n..] == [nodes[n]];
    assert q == 1 && s[0] == s[..1][0] == nodes[n];
    PrefixInserted(nodes, n, s, q, t);
    InsertedEntered(nodes, nodes[..n] + s, n + q, t, owner);
  }

  lemma IndexReady(timeline: seq<TemporalEntry>, idx: seq<TemporalEntry>, pending: int)
    requires IndexOk(timeline, idx, pending) && Ascending(timeline) && timeline != []
    ensures idx != [] && PointsInto(idx, timeline) && NonDecreasing(idx) && pending >= 0
    ensures Distinct(timeline)
  {
    hide Rank;
    AscendingDistinct(timeline);
    IndexEmptyOnlyWithList(timeline, idx, pending);
  }

  lemma RemovedOwners(nodes: seq<TemporalEntry>, q: nat, owner: Owner)
    requires q < |nodes| && forall k :: 0 <= k < |nodes| ==> nodes[k].owner == owner
    ensures forall k :: 0 <= k < |RemoveAt(nodes, q)| ==> RemoveAt(nodes, q)[k].owner == owner
  {
  }

  lemma ForgottenIsGone(idx: seq<TemporalEntry>, idx': seq<TemporalEntry>, e: TemporalEntry)
    requires Forgets(idx, idx', e)
    ensures e !in idx'
  {
  }

  lemma ForgottenSlot(idx: seq<TemporalEntry>, idx': seq<TemporalEntry>, e: TemporalEntry, k: nat)
    requires Forgets(idx, idx', e) && k < |idx'|
    ensures idx'[k] != e
  {
  }

  lemma ReplacedBefore(was: seq<TemporalEntry>, entry: TemporalEntry, next: TemporalEntry, pos: int)
    requires -1 <= pos < |was|
    requires forall k :: 0 <= k <= pos ==> Rank(was[k].time) < Rank(entry.time)
    ensures pos >= 0 ==> Replaced(was, entry, next)[pos] == was[pos]
  {
    hide Rank;
  }

  lemma UnindexedForgotten(idx: seq<TemporalEntry>, e: TemporalEntry)
    requires forall k :: 0 <= k < |idx| ==> Rank(idx[k].time) != Rank(e.time)
    ensures Forgets(idx, idx, e)
  {
    hide Rank;
  }

  lemma LastIsGreatest(timeline: seq<TemporalEntry>, idx: seq<TemporalEntry>, at: nat, pos: int)
    requires timeline != [] && Ascending(timeline) && PointsInto(idx, timeline) && NonDecreasing(idx)
    requires -1 <= pos < at < |idx| && idx[at] == timeline[|timeline| - 1]
    requires pos >= 0 ==> idx[pos] != idx[at]
    ensures forall k :: at < k < |idx| ==> idx[k] == timeline[|timeline| - 1]
    ensures forall k :: 0 <= k <= pos ==> Rank(idx[k].time) < Rank(timeline[|timeline| - 1].time)
  {
    hide Rank;
    var last := |timeline| - 1;
    forall k | 0 <= k < |idx|
      ensures idx[k] == timeline[last] || Rank(idx[k].time) < Rank(timeline[last].time)
    {
      assert idx[k] in timeline;
      var i :| 0 <= i < |timeline| && timeline[i] == idx[k];
    }
    if pos >= 0 {
      forall k | 0 <= k <= pos ensures Rank(idx[k].time) <= Rank(idx[pos].time) {
      }
    }
  }

  lemma SameTimeSameCell(timeline: seq<TemporalEntry>, idx: seq<TemporalEntry>, q: nat)
    requires Ascending(timeline) && PointsInto(idx, timeline) && q < |timeline|
    ensures forall k :: 0 <= k < |idx| && idx[k].time == timeline[q].time ==> idx[k] == timeline[q]
  {
    hide Rank;
    forall k | 0 <= k < |idx| && idx[k].time == timeline[q].time ensures idx[k] == timeline[q] {
      assert idx[k] in timeline;
      var i :| 0 <= i < |timeline| && timeline[i] == idx[k];
    }
  }

  lemma PendingNonNegative(timeline: seq<TemporalEntry>, idx: seq<TemporalEntry>, pending: int)
    requires IndexOk(timeline, idx, pending)
    ensures pending >= 0
  {
  }

  lemma HeadIsFirst(nodes: seq<TemporalEntry>, t: Time)
    requires Ascending(nodes) && HasTime(nodes, t)
    ensures nodes != [] && Rank(nodes[0].time) <= Rank(t)
  {
    hide Rank;
    var i :| 0 <= i < |nodes| && nodes[i].time == t;
  }

  lemma BehindInserted(nodes: seq<TemporalEntry>, k: nat, r: seq<TemporalEntry>, q: nat, t: Time,
                       owner: Owner)
    requires Ascending(nodes) && k < |nodes| && Rank(nodes[k].time) <= Rank(t)
    requires InsertedAt(nodes[k..], r, q, t) && r[0] == nodes[k] && r[q].owner == owner
    requires !HasTime(nodes, t)
    requires forall i :: 0 <= i < |nodes| ==> nodes[i].owner == owner
    ensures InsertedAt(nodes, nodes[..k] + r, k + q, t) && (nodes[..k] + r)[k + q] == r[q]
    ensures Ascending(nodes[..k] + r)
    ensures forall i :: 0 <= i < |nodes[..k] + r| ==> (nodes[..k] + r)[i].owner == owner
  {
    hide Rank;
    assert nodes[k] in nodes;
    PrefixInserted(nodes, k, r, q, t);
    InsertedAtAscending(nodes, nodes[..k] + r, k + q, t);
    InsertedOwners(nodes, nodes[..k] + r, k + q, t, owner);
  }

  lemma InsertedHead(nodes: seq<TemporalEntry>, r: seq<TemporalEntry>, p: nat, t: Time)
    requires Ascending(nodes) && InsertedAt(nodes, r, p, t)
    ensures Rank(r[0].time) <= Rank(t)
  {
    hide Rank;
    if p > 0 {
      assert r[0] == r[..p][0] == nodes[0];
    }
  }

  lemma InsertedOwners(nodes: seq<TemporalEntry>, r: seq<TemporalEntry>, p: nat, t: Time, owner: Owner)
    requires InsertedAt(nodes, r, p, t) && r[p].owner == owner
    requires forall k :: 0 <= k < |nodes| ==> nodes[k].owner == owner
    ensures forall k :: 0 <= k < |r| ==> r[k].owner == owner
  {
    hide Rank;
    forall k | 0 <= k < |r| && k != p ensures r[k].owner == owner {
      if k < p {
        assert r[k] == r[..p][k] == nodes[k];
      } else {
        assert r[k] == r[p + 1..][k - (p + 1)] == nodes[k - 1];
      }
    }
  }
}
