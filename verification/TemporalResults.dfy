/** Answers of a search, as lists of pairs (opencog/atomspace/TemporalTable.cc). */
module TemporalResults {
  import opened Temporals
  import opened TemporalEntries
  import opened Handles
  import opened TemporalRelation
  import opened TemporalCriteria
  import opened TemporalScan

  type Answer = seq<(Handle, Time)>

  /** The list holds exactly these pairs, each once, by ascending time. */
  ghost predicate Lists(r: Answer, pairs: set<(Handle, Time)>) {
    && (forall p :: p in r <==> p in pairs)
    && (forall i, j :: 0 <= i < j < |r| ==> r[i] != r[j] && Rank(r[i].1) <= Rank(r[j].1))
  }

  ghost function AllTimes(pairs: set<(Handle, Time)>): set<Time> {
    set p | p in pairs :: p.1
  }

  /** The pairs whose time is one of these. */
  ghost function PairsAt(pairs: set<(Handle, Time)>, times: set<Time>): set<(Handle, Time)> {
    set p | p in pairs && p.1 in times
  }

  ghost function HandlePairs(hs: set<Handle>, t: Time): set<(Handle, Time)> {
    set g | g in hs :: (g, t)
  }

  lemma ListsAppend(r: Answer, p: set<(Handle, Time)>, s: Answer, q: set<(Handle, Time)>)
    requires Lists(r, p) && Lists(s, q)
    requires forall x, y :: x in p && y in q ==> Rank(x.1) < Rank(y.1)
    ensures Lists(r + s, p + q)
  {
    hide Rank;
    var c := r + s;
    forall i, j | 0 <= i < j < |c| ensures c[i] != c[j] && Rank(c[i].1) <= Rank(c[j].1) {
      if i < |r| <= j {
        assert c[i] == r[i] && c[j] == s[j - |r|];
        assert r[i] in r && s[j - |r|] in s;
      } else if j < |r| {
        assert c[i] == r[i] && c[j] == r[j];
      } else {
        assert c[i] == s[i - |r|] && c[j] == s[j - |r|];
      }
    }
  }

  lemma ListsEmpty()
    ensures Lists([], {})
  {
  }

  lemma ListsOne(h: Handle, t: Time)
    ensures Lists([(h, t)], {(h, t)})
  {
  }

  /** Lists the handles of one time, in whatever order the handle set gives them. */
  method ListHandles(hs: set<Handle>, time: Time) returns (r: Answer)
    ensures Lists(r, HandlePairs(hs, time))
  {
    hide Rank;
    r := [];
    var rest := hs;
    while rest != {}
      invariant rest <= hs
      invariant forall p :: p in r <==> p.0 in hs - rest && p.1 == time
      invariant forall i, j :: 0 <= i < j < |r| ==> r[i] != r[j]
      decreases rest
    {
      var g :| g in rest;
      rest := rest - {g};
      r := r + [(g, time)];
    }
    forall i, j | 0 <= i < j < |r| ensures Rank(r[i].1) <= Rank(r[j].1) {
      assert r[i] in r && r[j] in r;
    }
  }

  // ------------------------------------------------------- the list of one handle

  lemma MatchedBefore(ts: seq<Time>, k: nat, t: Temporal, c: TemporalRelationship)
    requires t.Proper() || t == UNDEFINED_TEMPORAL
    requires Increasing(ts) && k < |ts|
    ensures forall u :: u in Matched(ts[..k], t, c) ==> Rank(u) < Rank(ts[k])
  {
    hide Rank, Holds;
    forall u | u in Matched(ts[..k], t, c) ensures Rank(u) < Rank(ts[k]) {
      var i :| 0 <= i < k && ts[..k][i] == u;
    }
  }

  /** A match of the list of one handle is listed behind the earlier ones. */
  lemma ListsMatch(r: Answer, h: Handle, ts: seq<Time>, k: nat, t: Temporal, c: TemporalRelationship)
    requires t.Proper() || t == UNDEFINED_TEMPORAL
    requires Increasing(ts) && k < |ts|
    requires Lists(r, PairsWith(h, Matched(ts[..k], t, c)))
    ensures Matching(ts[k], t, c) ==> Lists(r + [(h, ts[k])], PairsWith(h, Matched(ts[..k + 1], t, c)))
    ensures !Matching(ts[k], t, c) ==> Lists(r, PairsWith(h, Matched(ts[..k + 1], t, c)))
  {
    hide Rank, Holds, Lists, Matched, Increasing;
    MatchedNext(ts, k, t, c);
    MatchedBefore(ts, k, t, c);
    var before := Matched(ts[..k], t, c);
    if Matching(ts[k], t, c) {
      ListsOne(h, ts[k]);
      PairsWithAdd(h, before, ts[k]);
      ListsAppend(r, PairsWith(h, before), [(h, ts[k])], {(h, ts[k])});
    } else {
      assert before + {} == before;
    }
  }

  /** What a search over the times of one handle has listed after looking at the first `k` of them;
      for the previous time, only the last match, at position `p`. */
  ghost predicate Answering(r: Answer, h: Handle, ts: seq<Time>, k: nat, finished: bool,
                            t: Temporal, c: TemporalRelationship, p: int)
    requires t.Proper() || t == UNDEFINED_TEMPORAL
  {
    && Increasing(ts) && Scanned(ts, k, finished, t, c) && -1 <= p < k
    && (!OnlyRemembers(t, c) ==> p == -1 && Lists(r, PairsWith(h, Matched(ts[..k], t, c))))
    && (OnlyRemembers(t, c) ==> r == (if p >= 0 then [(h, ts[p])] else []))
    && (p >= 0 ==> Holds(ts[p], t, c))
    && (OnlyRemembers(t, c) ==> forall i :: p < i < k ==> !Holds(ts[i], t, c))
  }

  lemma AnswerStart(h: Handle, ts: seq<Time>, t: Temporal, c: TemporalRelationship)
    requires t.Proper() || t == UNDEFINED_TEMPORAL
    requires Increasing(ts)
    ensures Answering([], h, ts, 0, false, t, c, -1)
  {
    hide Rank, Holds, Finishes;
    assert Matched(ts[..0], t, c) == {};
    ListsEmpty();
  }

  lemma AnswerStep(r: Answer, h: Handle, ts: seq<Time>, k: nat, finished: bool,
                   t: Temporal, c: TemporalRelationship, p: int)
    requires t.Proper() || t == UNDEFINED_TEMPORAL
    requires Answering(r, h, ts, k, false, t, c, p) && k < |ts|
    requires finished <==> t != UNDEFINED_TEMPORAL && Finishes(ts[k], t, c)
    ensures Matching(ts[k], t, c) && OnlyRemembers(t, c) ==> Answering([(h, ts[k])], h, ts, k + 1, finished, t, c, k)
    ensures Matching(ts[k], t, c) && !OnlyRemembers(t, c) ==>
      Answering(r + [(h, ts[k])], h, ts, k + 1, finished, t, c, p)
    ensures !Matching(ts[k], t, c) ==> Answering(r, h, ts, k + 1, finished, t, c, p)
  {
    hide Rank, Holds, Finishes, Scanned, Matched, Lists, Increasing;
    ScannedNext(ts, k, finished, t, c);
    if !OnlyRemembers(t, c) {
      ListsMatch(r, h, ts, k, t, c);
    }
  }

  lemma AnswerDone(r: Answer, h: Handle, ts: seq<Time>, k: nat, finished: bool,
                   t: Temporal, c: TemporalRelationship, p: int)
    requires t.Proper() || t == UNDEFINED_TEMPORAL
    requires Answering(r, h, ts, k, finished, t, c, p) && (finished || k == |ts|)
    ensures Lists(r, PairsWith(h, Selected(TimeSet(ts), t, c)))
  {
    hide Rank, Holds, Finishes, Matched, Lists, Increasing, Selected;
    if OnlyRemembers(t, c) {
      PreviousComplete(ts, k, finished, t, c, p);
      if p >= 0 {
        ListsOne(h, ts[p]);
        assert PairsWith(h, {ts[p]}) == {(h, ts[p])};
      } else {
        ListsEmpty();
        assert PairsWith(h, {}) == {};
      }
    } else {
      ScanComplete(ts, k, finished, t, c);
    }
  }

  // ------------------------------------------------------- the list of all times

  lemma PairsAtOne(m: map<Time, set<Handle>>, t: Time)
    requires t in m
    ensures PairsAt(Pairs(m), {t}) == HandlePairs(m[t], t)
  {
    hide Rank;
    forall p: (Handle, Time) ensures p in PairsAt(Pairs(m), {t}) <==> p.1 == t && p.0 in m[t] {
      assert p == (p.0, p.1);
    }
  }

  /** The handles of one more time are listed behind those of the earlier times. */
  lemma ListsTime(r: Answer, s: Answer, m: map<Time, set<Handle>>, earlier: set<Time>, t: Time)
    requires Lists(r, PairsAt(Pairs(m), earlier)) && t in m
    requires Lists(s, HandlePairs(m[t], t))
    requires forall u :: u in earlier ==> Rank(u) < Rank(t)
    ensures Lists(r + s, PairsAt(Pairs(m), earlier + {t}))
  {
    hide Rank, Lists, Pairs;
    PairsAtOne(m, t);
    ListsAppend(r, PairsAt(Pairs(m), earlier), s, PairsAt(Pairs(m), {t}));
    assert PairsAt(Pairs(m), earlier + {t}) == PairsAt(Pairs(m), earlier) + PairsAt(Pairs(m), {t});
  }

  lemma KeyTimes(timeline: seq<TemporalEntry>, m: map<Time, set<Handle>>)
    requires KeysOk(timeline, m) && NoEmptySets(m) && Ascending(timeline)
    ensures TimeSet(Times(timeline)) == AllTimes(Pairs(m)) && Increasing(Times(timeline))
    ensures forall i :: 0 <= i < |timeline| ==> timeline[i].time in m
  {
    hide Rank;
    forall u ensures u in AllTimes(Pairs(m)) <==> u in m {
      if u in m {
        var g :| g in m[u];
        assert (g, u) in Pairs(m);
      }
    }
    hide Pairs, AllTimes;
    forall u ensures u in TimeSet(Times(timeline)) <==> HasTime(timeline, u) {
      if HasTime(timeline, u) {
        var i :| 0 <= i < |timeline| && timeline[i].time == u;
        assert Times(timeline)[i] == u;
      }
      if u in Times(timeline) {
        var i :| 0 <= i < |timeline| && Times(timeline)[i] == u;
        assert timeline[i] in timeline;
      }
    }
    forall i | 0 <= i < |timeline| ensures timeline[i].time in m {
      assert timeline[i] in timeline;
      assert HasTime(timeline, timeline[i].time);
    }
  }

  /** The same for a search over all times: matches list their handles at once, except for the
      previous time, which lists those of the last match, at position `p`, in the end. */
  ghost predicate AnsweringAll(r: Answer, m: map<Time, set<Handle>>, ts: seq<Time>, k: nat, finished: bool,
                               t: Temporal, c: TemporalRelationship, p: int)
    requires t.Proper() || t == UNDEFINED_TEMPORAL
  {
    && Increasing(ts) && Scanned(ts, k, finished, t, c) && -1 <= p < k
    && (!OnlyRemembers(t, c) ==> p == -1 && Lists(r, PairsAt(Pairs(m), Matched(ts[..k], t, c))))
    && (OnlyRemembers(t, c) ==> r == [])
    && (p >= 0 ==> Holds(ts[p], t, c))
    && (OnlyRemembers(t, c) ==> forall i :: p < i < k ==> !Holds(ts[i], t, c))
  }

  lemma AnswerAllStart(m: map<Time, set<Handle>>, ts: seq<Time>, t: Temporal, c: TemporalRelationship)
    requires t.Proper() || t == UNDEFINED_TEMPORAL
    requires Increasing(ts)
    ensures AnsweringAll([], m, ts, 0, false, t, c, -1)
  {
    hide Rank, Holds, Finishes;
    assert Matched(ts[..0], t, c) == {};
    assert PairsAt(Pairs(m), {}) == {};
    ListsEmpty();
  }

  lemma AnswerAllStep(r: Answer, s: Answer, m: map<Time, set<Handle>>, ts: seq<Time>, k: nat, finished: bool,
                      t: Temporal, c: TemporalRelationship, p: int)
    requires t.Proper() || t == UNDEFINED_TEMPORAL
    requires AnsweringAll(r, m, ts, k, false, t, c, p) && k < |ts| && ts[k] in m
    requires finished <==> t != UNDEFINED_TEMPORAL && Finishes(ts[k], t, c)
    requires Matching(ts[k], t, c) && !OnlyRemembers(t, c) ==> Lists(s, HandlePairs(m[ts[k]], ts[k]))
    ensures Matching(ts[k], t, c) && OnlyRemembers(t, c) ==> AnsweringAll(r, m, ts, k + 1, finished, t, c, k)
    ensures Matching(ts[k], t, c) && !OnlyRemembers(t, c) ==> AnsweringAll(r + s, m, ts, k + 1, finished, t, c, p)
    ensures !Matching(ts[k], t, c) ==> AnsweringAll(r, m, ts, k + 1, finished, t, c, p)
  {
    hide Rank, Holds, Finishes, Scanned, Matched, Lists, Increasing, Pairs, PairsAt, HandlePairs;
    ScannedNext(ts, k, finished, t, c);
    MatchedNext(ts, k, t, c);
    MatchedBefore(ts, k, t, c);
    var before := Matched(ts[..k], t, c);
    assert before + {} == before;
    if !OnlyRemembers(t, c) && Matching(ts[k], t, c) {
      ListsTime(r, s, m, before, ts[k]);
    }
  }

  lemma AnswerAllDone(r: Answer, s: Answer, m: map<Time, set<Handle>>, ts: seq<Time>, k: nat, finished: bool,
                      t: Temporal, c: TemporalRelationship, p: int)
    requires t.Proper() || t == UNDEFINED_TEMPORAL
    requires AnsweringAll(r, m, ts, k, finished, t, c, p) && (finished || k == |ts|)
    requires p >= 0 ==> p < |ts| && ts[p] in m && Lists(s, HandlePairs(m[ts[p]], ts[p]))
    ensures Lists(if p >= 0 then r + s else r, PairsAt(Pairs(m), Selected(TimeSet(ts), t, c)))
  {
    hide Rank, Holds, Finishes, Matched, Lists, Increasing, Selected, Pairs, HandlePairs;
    if OnlyRemembers(t, c) {
      PreviousComplete(ts, k, finished, t, c, p);
      if p >= 0 {
        PairsAtOne(m, ts[p]);
        assert r + s == s;
      } else {
        ListsEmpty();
        assert PairsAt(Pairs(m), {}) == {};
      }
    } else {
      ScanComplete(ts, k, finished, t, c);
    }
  }

  lemma ExactSelected(m: map<Time, set<Handle>>, t: Time)
    requires NoEmptySets(m) && t != UNDEFINED_TEMPORAL
    ensures PairsAt(Pairs(m), Selected(AllTimes(Pairs(m)), t, EXACT)) == HandlePairs(HandlesAt(m, t), t)
  {
    hide Rank;
    if t in m {
      var g :| g in m[t];
      assert (g, t) in Pairs(m);
      assert t in AllTimes(Pairs(m));
    }
    var chosen := Selected(AllTimes(Pairs(m)), t, EXACT);
    forall p: (Handle, Time) ensures p in PairsAt(Pairs(m), chosen) <==> p in HandlePairs(HandlesAt(m, t), t) {
      assert p == (p.0, p.1);
    }
  }

  lemma NoHandlePairs(t: Time)
    ensures Lists([], HandlePairs({}, t))
  {
    hide Rank;
  }

  lemma ListsPrepend(r: Answer, hs: set<Handle>, g: Handle, t: Time)
    requires Lists(r, HandlePairs(hs, t)) && g !in hs
    ensures Lists([(g, t)] + r, HandlePairs(hs + {g}, t))
  {
    hide Rank;
    var c := [(g, t)] + r;
    assert forall p :: p in r ==> p.0 in hs && p.1 == t;
    forall i, j | 0 <= i < j < |c| ensures c[i] != c[j] && Rank(c[i].1) <= Rank(c[j].1) {
      assert c[j] == r[j - 1] && r[j - 1] in r;
      if i > 0 {
        assert c[i] == r[i - 1];
      }
    }
    forall p: (Handle, Time) ensures p in c <==> p in HandlePairs(hs + {g}, t) {
      assert p == (p.0, p.1);
      assert p in r <==> p in HandlePairs(hs, t);
    }
  }

  /** The times that overlap are those before the first one that starts too late and end late enough. */
  lemma OverlapsSelected(ts: seq<Time>, limit: nat, t: Time)
    requires t != UNDEFINED_TEMPORAL && limit <= |ts|
    requires forall i :: 0 <= i < limit ==> Lo(ts[i]) <= Hi(t)
    requires forall i :: limit <= i < |ts| ==> Lo(ts[i]) > Hi(t)
    ensures Selected(TimeSet(ts), t, OVERLAPS) == Matched(ts[..limit], t, OVERLAPS)
    ensures forall i :: 0 <= i < limit ==> (Holds(ts[i], t, OVERLAPS) <==> Hi(ts[i]) >= Lo(t))
  {
    hide Rank, Lo, Hi;
    forall u | u in ts && Holds(u, t, OVERLAPS) ensures u in ts[..limit] {
      var i :| 0 <= i < |ts| && ts[i] == u;
      assert ts[..limit][i] == u;
    }
  }

  /** No time before one that starts early enough starts too late. */
  lemma StartsEarlyEnough(u: Time, v: Time, t: Time)
    requires Rank(u) <= Rank(v) && (Lo(v) <= Hi(t) || Rank(v) <= Rank(t))
    ensures Lo(u) <= Hi(t)
  {
    RankFields(u, v);
    RankFields(v, u);
    RankFields(v, t);
    RankFields(t, v);
    RankFields(t, t);
  }

  ghost predicate ListsOverlaps(r: Answer, m: map<Time, set<Handle>>, ts: seq<Time>, k: nat, t: Time)
    requires t != UNDEFINED_TEMPORAL && k <= |ts|
  {
    Lists(r, PairsAt(Pairs(m), Matched(ts[..k], t, OVERLAPS)))
  }

  lemma ListsOverlapsStart(m: map<Time, set<Handle>>, ts: seq<Time>, t: Time)
    requires t != UNDEFINED_TEMPORAL
    ensures ListsOverlaps([], m, ts, 0, t)
  {
    hide Rank, Lo, Hi;
    assert Matched(ts[..0], t, OVERLAPS) == {};
    assert PairsAt(Pairs(m), {}) == {};
    ListsEmpty();
  }

  lemma ListsOverlapsEnd(r: Answer, m: map<Time, set<Handle>>, ts: seq<Time>, limit: nat, t: Time)
    requires t != UNDEFINED_TEMPORAL && limit <= |ts|
    requires ListsOverlaps(r, m, ts, limit, t)
    requires Selected(TimeSet(ts), t, OVERLAPS) == Matched(ts[..limit], t, OVERLAPS)
    ensures Lists(r, PairsAt(Pairs(m), Selected(TimeSet(ts), t, OVERLAPS)))
  {
    hide Rank, Matched, Lists, Selected;
  }

  lemma ListsOverlapsStep(r: Answer, s: Answer, m: map<Time, set<Handle>>, ts: seq<Time>, k: nat, t: Time)
    requires t != UNDEFINED_TEMPORAL && k < |ts| && Increasing(ts) && ts[k] in m
    requires ListsOverlaps(r, m, ts, k, t)
    requires if Holds(ts[k], t, OVERLAPS) then Lists(s, HandlePairs(m[ts[k]], ts[k])) else s == []
    ensures ListsOverlaps(r + s, m, ts, k + 1, t)
  {
    hide Rank, Lo, Hi, Holds, Matched, Lists, Increasing, Pairs, PairsAt, HandlePairs;
    MatchedNext(ts, k, t, OVERLAPS);
    MatchedBefore(ts, k, t, OVERLAPS);
    var before := Matched(ts[..k], t, OVERLAPS);
    if Holds(ts[k], t, OVERLAPS) {
      ListsTime(r, s, m, before, ts[k]);
    } else {
      assert before + {} == before && r + s == r;
    }
  }
}
