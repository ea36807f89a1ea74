/** How far a removal over the list of one handle has come, as values
    (opencog/atomspace/TemporalTable.cc). */
module TemporalScan {
  import opened Temporals
  import opened TemporalEntries
  import opened Handles
  import opened TemporalRelation
  import opened TemporalCriteria

  /** The criteria that only remember their match while scanning. */
  predicate OnlyRemembers(t: Temporal, c: TemporalRelationship) {
    t != UNDEFINED_TEMPORAL && c.Previous()
  }

  ghost predicate Matching(u: Time, t: Temporal, c: TemporalRelationship)
    requires t.Proper() || t == UNDEFINED_TEMPORAL
  {
    t == UNDEFINED_TEMPORAL || Holds(u, t, c)
  }

  /** One look of a search: a search without a time matches everything and never stops early. */
  method MatchesQuery(time: Time, t: Temporal, criterion: TemporalRelationship)
    returns (matches: bool, searchFinished: bool)
    requires t.Proper() || t == UNDEFINED_TEMPORAL
    ensures matches <==> Matching(time, t, criterion)
    ensures searchFinished <==> t != UNDEFINED_TEMPORAL && Finishes(time, t, criterion)
  {
    hide Holds, Finishes, Rank;
    matches, searchFinished := true, false;
    if t != UNDEFINED_TEMPORAL {
      matches, searchFinished := MatchesTimeCriterion(time, t, criterion);
    }
  }

  /** The first `k` of the original cells `all` have been looked at. The list of the handle is now
      `kept` followed by the cells not looked at yet; the matches are gone from the relation, unless
      they are only remembered, the last one at position `p`. */
  ghost predicate Progress(all: seq<TemporalEntry>, k: nat, finished: bool, kept: seq<TemporalEntry>,
                           m0: map<Time, set<Handle>>, m: map<Time, set<Handle>>,
                           lists: map<Handle, seq<TemporalEntry>>, h: Handle,
                           t: Temporal, c: TemporalRelationship, p: int, result: bool)
    requires t.Proper() || t == UNDEFINED_TEMPORAL
  {
    var ts := Times(all);
    && Scanned(ts, k, finished, t, c)
    && CellsOf(lists, h) == kept + all[k..]
    && Pairs(m) == Pairs(m0) - PairsWith(h, if OnlyRemembers(t, c) then {} else Matched(ts[..k], t, c))
    && (OnlyRemembers(t, c) ==> kept == all[..k])
    && -1 <= p < k
    && (p >= 0 ==> OnlyRemembers(t, c) && Holds(ts[p], t, c))
    && (OnlyRemembers(t, c) ==> forall i :: p < i < k ==> !Holds(ts[i], t, c))
    && (result <==> Matched(ts[..k], t, c) != {})
  }

  lemma ProgressStart(m: map<Time, set<Handle>>, lists: map<Handle, seq<TemporalEntry>>, h: Handle,
                      t: Temporal, c: TemporalRelationship)
    requires t.Proper() || t == UNDEFINED_TEMPORAL
    ensures Progress(CellsOf(lists, h), 0, false, [], m, m, lists, h, t, c, -1, false)
  {
    hide Rank, Holds, Finishes;
    var all := CellsOf(lists, h);
    assert [] + all[0..] == all;
    assert Matched(Times(all)[..0], t, c) == {};
  }

  lemma ProgressCells(all: seq<TemporalEntry>, k: nat, kept: seq<TemporalEntry>,
                      m0: map<Time, set<Handle>>, m: map<Time, set<Handle>>,
                      lists: map<Handle, seq<TemporalEntry>>, h: Handle,
                      t: Temporal, c: TemporalRelationship, p: int, result: bool)
    requires t.Proper() || t == UNDEFINED_TEMPORAL
    requires Progress(all, k, false, kept, m0, m, lists, h, t, c, p, result) && k < |all|
    ensures CellsOf(lists, h) == kept + [all[k]] + all[k + 1..]
  {
    hide Rank, Holds, Finishes, Scanned, Matched, Pairs, PairsWith;
    assert kept + all[k..] == kept + [all[k]] + all[k + 1..];
  }

  lemma ScannedNext(ts: seq<Time>, k: nat, finished: bool, t: Temporal, c: TemporalRelationship)
    requires t.Proper() || t == UNDEFINED_TEMPORAL
    requires k < |ts| && Scanned(ts, k, false, t, c)
    requires finished <==> t != UNDEFINED_TEMPORAL && Finishes(ts[k], t, c)
    ensures Scanned(ts, k + 1, finished, t, c)
  {
    hide Rank, Holds, Finishes;
  }

  lemma ProgressSkip(all: seq<TemporalEntry>, k: nat, finished: bool, kept: seq<TemporalEntry>,
                     m0: map<Time, set<Handle>>, m: map<Time, set<Handle>>,
                     lists: map<Handle, seq<TemporalEntry>>, h: Handle,
                     t: Temporal, c: TemporalRelationship, p: int, result: bool)
    requires t.Proper() || t == UNDEFINED_TEMPORAL
    requires Progress(all, k, false, kept, m0, m, lists, h, t, c, p, result) && k < |all|
    requires finished <==> t != UNDEFINED_TEMPORAL && Finishes(all[k].time, t, c)
    requires !Matching(all[k].time, t, c)
    ensures Progress(all, k + 1, finished, kept + [all[k]], m0, m, lists, h, t, c, p, result)
  {
    hide Rank, Holds, Finishes, Scanned, Matched, Pairs, PairsWith;
    var ts := Times(all);
    ScannedNext(ts, k, finished, t, c);
    MatchedNext(ts, k, t, c);
    assert kept + all[k..] == kept + [all[k]] + all[k + 1..];
    assert Matched(ts[..k], t, c) + {} == Matched(ts[..k], t, c);
  }

  lemma ProgressRemember(all: seq<TemporalEntry>, k: nat, finished: bool, kept: seq<TemporalEntry>,
                         m0: map<Time, set<Handle>>, m: map<Time, set<Handle>>,
                         lists: map<Handle, seq<TemporalEntry>>, h: Handle,
                         t: Temporal, c: TemporalRelationship, p: int, result: bool)
    requires t.Proper() || t == UNDEFINED_TEMPORAL
    requires Progress(all, k, false, kept, m0, m, lists, h, t, c, p, result) && k < |all|
    requires finished <==> t != UNDEFINED_TEMPORAL && Finishes(all[k].time, t, c)
    requires Matching(all[k].time, t, c) && OnlyRemembers(t, c)
    ensures Progress(all, k + 1, finished, kept + [all[k]], m0, m, lists, h, t, c, k, true)
  {
    hide Rank, Holds, Finishes, Scanned, Matched, Pairs, PairsWith;
    var ts := Times(all);
    ScannedNext(ts, k, finished, t, c);
    MatchedNext(ts, k, t, c);
    assert kept + all[k..] == kept + [all[k]] + all[k + 1..];
    assert ts[k] in Matched(ts[..k + 1], t, c);
  }

  lemma ProgressDrop(all: seq<TemporalEntry>, k: nat, finished: bool, kept: seq<TemporalEntry>,
                     m0: map<Time, set<Handle>>, m: map<Time, set<Handle>>,
                     lists: map<Handle, seq<TemporalEntry>>, lists': map<Handle, seq<TemporalEntry>>, h: Handle,
                     t: Temporal, c: TemporalRelationship, p: int, result: bool)
    requires t.Proper() || t == UNDEFINED_TEMPORAL
    requires Progress(all, k, false, kept, m0, m, lists, h, t, c, p, result) && k < |all|
    requires finished <==> t != UNDEFINED_TEMPORAL && Finishes(all[k].time, t, c)
    requires Matching(all[k].time, t, c) && !OnlyRemembers(t, c) && all[k].time in m
    requires CellsOf(lists', h) == kept + all[k + 1..]
    ensures Progress(all, k + 1, finished, kept, m0, DropPair(m, h, all[k].time), lists', h, t, c, p, true)
  {
    hide Rank, Holds, Finishes, Scanned, Matched, Pairs, PairsWith, DropPair;
    var ts := Times(all);
    ScannedNext(ts, k, finished, t, c);
    MatchedNext(ts, k, t, c);
    PairsDrop(m, h, ts[k]);
    PairsWithAdd(h, Matched(ts[..k], t, c), ts[k]);
    assert ts[k] in Matched(ts[..k + 1], t, c);
  }

  ghost predicate LostPairs(m0: map<Time, set<Handle>>, m: map<Time, set<Handle>>, h: Handle, chosen: set<Time>) {
    Pairs(m) == Pairs(m0) - PairsWith(h, chosen)
  }

  lemma ListTimeSet(lists: map<Handle, seq<TemporalEntry>>, m: map<Time, set<Handle>>, h: Handle)
    requires ListsOk(lists, m)
    ensures TimeSet(Times(CellsOf(lists, h))) == TimesOf(Pairs(m), h)
    ensures Increasing(Times(CellsOf(lists, h)))
  {
    hide Rank;
    assert ListOk(m, h, CellsOf(lists, h));
    var nodes := CellsOf(lists, h);
    hide ListsOk, ListOk;
    ListTimes(lists, m, h);
    hide Pairs;
    forall u ensures u in TimeSet(Times(nodes)) <==> HasTime(nodes, u) {
      if HasTime(nodes, u) {
        var i :| 0 <= i < |nodes| && nodes[i].time == u;
        assert Times(nodes)[i] == u;
      }
      if u in Times(nodes) {
        var i :| 0 <= i < |nodes| && Times(nodes)[i] == u;
        assert nodes[i] in nodes;
      }
    }
  }

  /** At the end of the scan, what is gone, or remembered, is what the search selects. */
  lemma ProgressDone(all: seq<TemporalEntry>, k: nat, finished: bool, kept: seq<TemporalEntry>,
                     m0: map<Time, set<Handle>>, m: map<Time, set<Handle>>,
                     lists: map<Handle, seq<TemporalEntry>>, h: Handle,
                     t: Temporal, c: TemporalRelationship, p: int, result: bool)
    requires t.Proper() || t == UNDEFINED_TEMPORAL
    requires Progress(all, k, finished, kept, m0, m, lists, h, t, c, p, result)
    requires finished || k == |all|
    requires Increasing(Times(all))
    ensures var chosen := Selected(TimeSet(Times(all)), t, c);
      && (result <==> chosen != {})
      && (!OnlyRemembers(t, c) ==> p == -1 && LostPairs(m0, m, h, chosen))
      && (OnlyRemembers(t, c) ==> chosen == (if p >= 0 then {all[p].time} else {}))
    ensures OnlyRemembers(t, c) ==> Pairs(m) == Pairs(m0) && CellsOf(lists, h) == all
  {
    hide Rank, Holds, Finishes, Increasing;
    var ts := Times(all);
    if OnlyRemembers(t, c) {
      PreviousComplete(ts, k, finished, t, c, p);
      RememberedMatch(ts, k, t, c, p);
      assert Pairs(m0) - PairsWith(h, {}) == Pairs(m0);
      assert all[..k] + all[k..] == all;
    } else {
      ScanComplete(ts, k, finished, t, c);
    }
  }

  lemma RememberedMatch(ts: seq<Time>, k: nat, t: Temporal, c: TemporalRelationship, p: int)
    requires t.Proper() && t != UNDEFINED_TEMPORAL && k <= |ts| && -1 <= p < k
    requires p >= 0 ==> Holds(ts[p], t, c)
    requires forall i :: p < i < k ==> !Holds(ts[i], t, c)
    ensures Matched(ts[..k], t, c) != {} <==> p >= 0
  {
    hide Rank, Holds;
    if p >= 0 {
      assert ts[..k][p] == ts[p];
      assert ts[p] in Matched(ts[..k], t, c);
    } else {
      forall u | u in ts[..k] ensures !Holds(u, t, c) {
        var i :| 0 <= i < k && ts[..k][i] == u;
      }
    }
  }
}
