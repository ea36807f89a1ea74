/** What the maps of the table denote, as values (opencog/atomspace/TemporalTable.cc). */
module TemporalRelation {
  import opened Handles
  import opened Temporals
  import opened TemporalEntries
  import opened TemporalIndex

  /** The relation a map from times to handle sets stands for. */
  ghost function Pairs(m: map<Time, set<Handle>>): set<(Handle, Time)> {
    set t, h | t in m && h in m[t] :: (h, t)
  }

  function HandlesAt(m: map<Time, set<Handle>>, t: Time): set<Handle> {
    if t in m then m[t] else {}
  }

  ghost predicate Related(m: map<Time, set<Handle>>, h: Handle, t: Time) {
    t in m && h in m[t]
  }

  ghost function CellsOf(lists: map<Handle, seq<TemporalEntry>>, h: Handle): seq<TemporalEntry> {
    if h in lists then lists[h] else []
  }

  ghost predicate NoEmptySets(m: map<Time, set<Handle>>) {
    forall t :: t in m ==> m[t] != {}
  }

  /** The cells of one handle: a sorted list of the times the handle is related to. */
  ghost predicate ListOk(m: map<Time, set<Handle>>, h: Handle, nodes: seq<TemporalEntry>) {
    && Ascending(nodes)
    && (forall k :: 0 <= k < |nodes| ==> nodes[k].owner == Of(h))
    && (forall t :: HasTime(nodes, t) <==> Related(m, h, t))
  }

  /** The lists of the handles and the map from times to handle sets hold the same pairs. */
  ghost predicate ListsOk(lists: map<Handle, seq<TemporalEntry>>, m: map<Time, set<Handle>>) {
    && NoEmptySets(m)
    && (forall h :: h in lists ==> lists[h] != [])
    && (forall h :: ListOk(m, h, CellsOf(lists, h)))
  }

  /** The list of all times holds the keys of the map. */
  ghost predicate KeysOk(timeline: seq<TemporalEntry>, m: map<Time, set<Handle>>) {
    forall t :: HasTime(timeline, t) <==> t in m
  }

  lemma {:induction false} KeysSize(timeline: seq<TemporalEntry>, keys: set<Time>)
    requires Ascending(timeline)
    requires forall t :: HasTime(timeline, t) <==> t in keys
    ensures |keys| == |timeline|
  {
    hide Rank;
    if timeline == [] {
      forall t ensures t !in keys {
        assert !HasTime(timeline, t);
      }
      assert keys == {};
    } else {
      var n := |timeline| - 1;
      var rest, last := timeline[..n], timeline[n].time;
      assert timeline[n] in timeline;
      assert HasTime(timeline, last);
      forall t ensures HasTime(rest, t) <==> t in keys - {last} {
        if HasTime(rest, t) {
          var i :| 0 <= i < n && rest[i].time == t;
          assert timeline[i] in timeline;
          assert HasTime(timeline, t);
        }
        if t in keys - {last} {
          assert HasTime(timeline, t);
          var i :| 0 <= i < |timeline| && timeline[i].time == t;
          assert rest[i] in rest;
        }
      }
      KeysSize(rest, keys - {last});
    }
  }

  lemma PairsAdd(m: map<Time, set<Handle>>, h: Handle, t: Time)
    ensures Pairs(m[t := HandlesAt(m, t) + {h}]) == Pairs(m) + {(h, t)}
  {
    hide Rank;
    var m' := m[t := HandlesAt(m, t) + {h}];
    forall p: (Handle, Time) ensures p in Pairs(m') <==> p in Pairs(m) + {(h, t)} {
      assert p == (p.0, p.1);
      assert p in Pairs(m') <==> p.1 in m' && p.0 in m'[p.1];
      assert p in Pairs(m) <==> p.1 in m && p.0 in m[p.1];
    }
  }

  /** Takes one handle from one time; a time without handles goes too. */
  function DropPair(m: map<Time, set<Handle>>, h: Handle, t: Time): map<Time, set<Handle>>
    requires t in m
  {
    if m[t] - {h} == {} then m - {t} else m[t := m[t] - {h}]
  }

  lemma PairsDrop(m: map<Time, set<Handle>>, h: Handle, t: Time)
    requires t in m
    ensures Pairs(DropPair(m, h, t)) == Pairs(m) - {(h, t)}
  {
    hide Rank;
    var m' := DropPair(m, h, t);
    forall p: (Handle, Time) ensures p in Pairs(m') <==> p in Pairs(m) - {(h, t)} {
      assert p == (p.0, p.1);
      assert p in Pairs(m') <==> p.1 in m' && p.0 in m'[p.1];
      assert p in Pairs(m) <==> p.1 in m && p.0 in m[p.1];
    }
  }

  lemma HasTimeInserted(nodes: seq<TemporalEntry>, r: seq<TemporalEntry>, p: nat, t: Time)
    requires InsertedAt(nodes, r, p, t)
    ensures forall u :: HasTime(r, u) <==> HasTime(nodes, u) || u == t
  {
    hide Rank;
    forall u ensures HasTime(r, u) <==> HasTime(nodes, u) || u == t {
      if HasTime(nodes, u) {
        var i :| 0 <= i < |nodes| && nodes[i].time == u;
        if i < p {
          assert r[i] == r[..p][i] == nodes[i];
          assert r[i] in r;
        } else {
          assert r[i + 1] == r[p + 1..][i - p] == nodes[i];
          assert r[i + 1] in r;
        }
      }
      assert r[p] in r;
      if HasTime(r, u) && u != t {
        var i :| 0 <= i < |r| && r[i].time == u;
        if i < p {
          assert r[i] == r[..p][i] == nodes[i];
          assert nodes[i] in nodes;
        } else {
          assert r[i] == r[p + 1..][i - (p + 1)] == nodes[i - 1];
          assert nodes[i - 1] in nodes;
        }
      }
    }
  }

  lemma HasTimeRemoved(nodes: seq<TemporalEntry>, q: nat)
    requires Ascending(nodes) && q < |nodes|
    ensures forall u :: HasTime(RemoveAt(nodes, q), u) <==> HasTime(nodes, u) && u != nodes[q].time
  {
    hide Rank;
    forall i | 0 <= i < |nodes| && i != q ensures nodes[i].time != nodes[q].time {
      assert i < q ==> Rank(nodes[i].time) < Rank(nodes[q].time);
      assert q < i ==> Rank(nodes[q].time) < Rank(nodes[i].time);
    }
    AscendingDistinct(nodes);
    RemovedCells(nodes, q);
    hide Ascending, RemoveAt, Distinct, Cells;
    var r := RemoveAt(nodes, q);
    forall u ensures HasTime(r, u) <==> HasTime(nodes, u) && u != nodes[q].time {
      if HasTime(nodes, u) && u != nodes[q].time {
        var i :| 0 <= i < |nodes| && nodes[i].time == u;
      }
      if HasTime(r, u) {
        var i :| 0 <= i < |r| && r[i].time == u;
        var j :| 0 <= j < |nodes| && nodes[j] == r[i];
      }
    }
  }

  /** The pair (h, t) enters both sides. */
  lemma ListsOkAdd(lists: map<Handle, seq<TemporalEntry>>, m: map<Time, set<Handle>>, h: Handle, t: Time,
                   r: seq<TemporalEntry>)
    requires ListsOk(lists, m)
    requires Ascending(r) && forall k :: 0 <= k < |r| ==> r[k].owner == Of(h)
    requires forall u :: HasTime(r, u) <==> HasTime(CellsOf(lists, h), u) || u == t
    ensures ListsOk(lists[h := r], m[t := HandlesAt(m, t) + {h}])
  {
    hide Rank, Ascending, HasTime;
    var m', lists' := m[t := HandlesAt(m, t) + {h}], lists[h := r];
    forall g, u ensures Related(m', g, u) <==> Related(m, g, u) || (g == h && u == t) {
    }
    forall g ensures ListOk(m', g, CellsOf(lists', g)) {
      assert ListOk(m, g, CellsOf(lists, g));
      if g == h {
        assert CellsOf(lists', h) == r;
      } else {
        assert CellsOf(lists', g) == CellsOf(lists, g);
      }
    }
    NotEmptyIf(r, t);
  }

  lemma NotEmptyIf(r: seq<TemporalEntry>, t: Time)
    requires HasTime(r, t)
    ensures r != []
  {
  }

  ghost function WithCells(lists: map<Handle, seq<TemporalEntry>>, h: Handle, r: seq<TemporalEntry>)
    : map<Handle, seq<TemporalEntry>>
  {
    if r == [] then lists - {h} else lists[h := r]
  }

  /** The pair (h, t) leaves both sides. */
  lemma ListsOkDrop(lists: map<Handle, seq<TemporalEntry>>, m: map<Time, set<Handle>>, h: Handle, t: Time,
                    r: seq<TemporalEntry>)
    requires ListsOk(lists, m) && Related(m, h, t)
    requires Ascending(r) && forall k :: 0 <= k < |r| ==> r[k].owner == Of(h)
    requires forall u :: HasTime(r, u) <==> HasTime(CellsOf(lists, h), u) && u != t
    ensures ListsOk(WithCells(lists, h, r), DropPair(m, h, t))
  {
    hide Rank, Ascending, HasTime;
    var m', lists' := DropPair(m, h, t), WithCells(lists, h, r);
    forall g, u ensures Related(m', g, u) <==> Related(m, g, u) && !(g == h && u == t) {
    }
    forall g ensures ListOk(m', g, CellsOf(lists', g)) {
      assert ListOk(m, g, CellsOf(lists, g));
      if g == h {
        assert CellsOf(lists', h) == r;
      } else {
        assert CellsOf(lists', g) == CellsOf(lists, g);
      }
    }
  }

  ghost function PairsWith(h: Handle, times: set<Time>): set<(Handle, Time)> {
    set u | u in times :: (h, u)
  }

  ghost function TimesOf(pairs: set<(Handle, Time)>, h: Handle): set<Time> {
    set p | p in pairs && p.0 == h :: p.1
  }

  lemma PairsWithAdd(h: Handle, times: set<Time>, t: Time)
    ensures PairsWith(h, times + {t}) == PairsWith(h, times) + {(h, t)}
  {
    hide Rank;
  }

  /** The times in the list of a handle are the times the relation gives it. */
  lemma ListTimes(lists: map<Handle, seq<TemporalEntry>>, m: map<Time, set<Handle>>, h: Handle)
    requires ListsOk(lists, m)
    ensures forall u :: u in TimesOf(Pairs(m), h) <==> HasTime(CellsOf(lists, h), u)
  {
    hide Rank, Ascending, HasTime;
    assert ListOk(m, h, CellsOf(lists, h));
    forall u ensures u in TimesOf(Pairs(m), h) <==> Related(m, h, u) {
      if Related(m, h, u) {
        assert (h, u) in Pairs(m);
      }
    }
  }

  // ------------------------------------------------------- one cell leaves a list

  lemma {:induction false} WithoutConcat(a: seq<TemporalEntry>, b: seq<TemporalEntry>, t: Time)
    ensures Without(a + b, t) == Without(a, t) + Without(b, t)
  {
    if b == [] {
      assert a + b == a;
    } else {
      var n := |b| - 1;
      assert (a + b)[..|a + b| - 1] == a + b[..n];
      WithoutConcat(a, b[..n], t);
    }
  }

  lemma {:induction false} WithoutAbsent(nodes: seq<TemporalEntry>, t: Time)
    requires forall k :: 0 <= k < |nodes| ==> nodes[k].time != t
    ensures Without(nodes, t) == nodes
  {
    if nodes != [] {
      var n := |nodes| - 1;
      WithoutAbsent(nodes[..n], t);
      assert nodes == nodes[..n] + [nodes[n]];
    }
  }

  lemma WithoutMiddle(kept: seq<TemporalEntry>, x: TemporalEntry, rest: seq<TemporalEntry>)
    requires Ascending(kept + [x] + rest)
    ensures Without(kept + [x] + rest, x.time) == kept + rest
  {
    hide Rank, Without;
    var nodes := kept + [x] + rest;
    forall k | 0 <= k < |kept| ensures kept[k].time != x.time {
      assert nodes[k] == kept[k] && nodes[|kept|] == x;
    }
    forall k | 0 <= k < |rest| ensures rest[k].time != x.time {
      assert nodes[|kept| + 1 + k] == rest[k] && nodes[|kept|] == x;
    }
    WithoutAbsent(kept, x.time);
    WithoutAbsent(rest, x.time);
    WithoutConcat(kept + [x], rest, x.time);
    WithoutConcat(kept, [x], x.time);
    WithoutSingle(x);
  }

  lemma WithoutSingle(x: TemporalEntry)
    ensures Without([x], x.time) == []
  {
  }

  /** Deleting a time from the list of a handle. */
  lemma WithoutFacts(nodes: seq<TemporalEntry>, t: Time, owner: Owner)
    requires Ascending(nodes) && forall k :: 0 <= k < |nodes| ==> nodes[k].owner == owner
    ensures var r := Without(nodes, t);
      && Ascending(r) && (forall k :: 0 <= k < |r| ==> r[k].owner == owner)
      && (forall k :: 0 <= k < |r| ==> r[k] in nodes && r[k].time != t)
      && (forall u :: HasTime(r, u) <==> HasTime(nodes, u) && u != t)
  {
    hide Rank, Without;
    WithoutAscending(nodes, t);
    WithoutMembers(nodes, t);
    hide Ascending;
    var r := Without(nodes, t);
    forall u ensures HasTime(r, u) <==> HasTime(nodes, u) && u != t {
      if HasTime(r, u) {
        var i :| 0 <= i < |r| && r[i].time == u;
      }
      if HasTime(nodes, u) && u != t {
        var i :| 0 <= i < |nodes| && nodes[i].time == u;
      }
    }
  }
}
