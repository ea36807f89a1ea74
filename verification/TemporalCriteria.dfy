/** The search criteria of the table (opencog/atomspace/TemporalTable.h, TemporalTable.cc), over
    plain sets of times. */
module TemporalCriteria {
  import opened Temporals

  datatype TemporalRelationship =
    | EXACT
    | STARTS_BEFORE
    | STARTS_WITHIN
    | STARTS_AFTER
    | ENDS_BEFORE
    | ENDS_WITHIN
    | ENDS_AFTER
    | OVERLAPS
    | INCLUDES
    | NEXT_AFTER_START_OF
    | NEXT_AFTER_END_OF
    | PREVIOUS_BEFORE_START_OF
    | PREVIOUS_BEFORE_END_OF
  {
    predicate Next() {
      NEXT_AFTER_START_OF? || NEXT_AFTER_END_OF?
    }

    predicate Previous() {
      PREVIOUS_BEFORE_START_OF? || PREVIOUS_BEFORE_END_OF?
    }
  }

  /** The documented meaning of a criterion: whether a stored time `u` stands in the relation to the
      given time `t`. For the next and previous criteria this is the condition on the candidates. */
  ghost predicate Holds(u: Time, t: Time, c: TemporalRelationship) {
    match c
    case EXACT => u == t
    case STARTS_BEFORE => Lo(u) < Lo(t)
    case STARTS_WITHIN => Lo(t) <= Lo(u) <= Hi(t)
    case STARTS_AFTER => Lo(u) > Hi(t)
    case ENDS_BEFORE => Hi(u) < Lo(t)
    case ENDS_WITHIN => Lo(t) <= Hi(u) <= Hi(t)
    case ENDS_AFTER => Hi(u) > Hi(t)
    case OVERLAPS => Lo(t) <= Hi(u) && Lo(u) <= Hi(t)
    case INCLUDES => Lo(u) <= Lo(t) && Hi(u) >= Hi(t)
    case NEXT_AFTER_START_OF => Lo(u) > Lo(t)
    case NEXT_AFTER_END_OF => Lo(u) > Hi(t)
    case PREVIOUS_BEFORE_START_OF => Lo(u) < Lo(t)
    case PREVIOUS_BEFORE_END_OF => Lo(u) < Hi(t)
  }

  /** What a search over a set of times has to find. A search without a time finds all of them. */
  ghost function Selected(times: set<Time>, t: Temporal, c: TemporalRelationship): set<Time>
    requires t.Proper() || t == UNDEFINED_TEMPORAL
  {
    if t == UNDEFINED_TEMPORAL then times
    else if c.Next() then
      set u | u in times && Holds(u, t, c) && forall v :: v in times && Holds(v, t, c) ==> Rank(u) <= Rank(v)
    else if c.Previous() then
      set u | u in times && Holds(u, t, c) && forall v :: v in times && Holds(v, t, c) ==> Rank(v) <= Rank(u)
    else
      set u | u in times && Holds(u, t, c)
  }

  /** Overlapping is starting or ending within the given time, or reaching over it on both sides. */
  lemma OverlapsMeans(u: Time, t: Time)
    ensures Holds(u, t, OVERLAPS) <==>
      Holds(u, t, STARTS_WITHIN) || Holds(u, t, ENDS_WITHIN) || (Lo(u) < Lo(t) && Hi(u) > Hi(t))
  {
    CompareToIsRank(u, t);
  }

  /** From 1 to 4 reaches over from 2 to 3 on both sides: it overlaps without starting or ending within. */
  lemma OverlapsBeyond()
    ensures var u, t := Temporal(1, 4, false), Temporal(2, 3, false);
      Holds(u, t, OVERLAPS) && !Holds(u, t, STARTS_WITHIN) && !Holds(u, t, ENDS_WITHIN)
  {
    OverlapsMeans(Temporal(1, 4, false), Temporal(2, 3, false));
  }

  /** How the criteria relate: for its start and for its end, a time is before the given one, within it, or
      after it, and no two of these; before and after are converses; the criteria for the next and the
      previous time start after or before its start or its end; and to include is that the other starts and
      ends within. */
  lemma CriteriaRelate(u: Time, t: Time)
    ensures Holds(u, t, STARTS_BEFORE) <==> !Holds(u, t, STARTS_WITHIN) && !Holds(u, t, STARTS_AFTER)
    ensures Holds(u, t, STARTS_AFTER) ==> !Holds(u, t, STARTS_WITHIN)
    ensures Holds(u, t, ENDS_BEFORE) <==> !Holds(u, t, ENDS_WITHIN) && !Holds(u, t, ENDS_AFTER)
    ensures Holds(u, t, ENDS_AFTER) ==> !Holds(u, t, ENDS_WITHIN)
    ensures Holds(u, t, STARTS_AFTER) <==> Holds(t, u, ENDS_BEFORE)
    ensures Holds(u, t, OVERLAPS) <==> !Holds(u, t, STARTS_AFTER) && !Holds(u, t, ENDS_BEFORE)
    ensures Holds(u, t, INCLUDES) <==> Holds(t, u, STARTS_WITHIN) && Holds(t, u, ENDS_WITHIN)
    ensures Holds(u, t, INCLUDES) && Holds(t, u, INCLUDES) <==> Lo(u) == Lo(t) && Hi(u) == Hi(t)
    ensures Holds(u, t, NEXT_AFTER_START_OF) <==> Holds(t, u, STARTS_BEFORE)
    ensures Holds(u, t, NEXT_AFTER_END_OF) <==> Holds(u, t, STARTS_AFTER)
    ensures Holds(u, t, PREVIOUS_BEFORE_START_OF) <==> Holds(u, t, STARTS_BEFORE)
    ensures Holds(u, t, PREVIOUS_BEFORE_END_OF) <==> Holds(u, Temporal(Hi(t), Hi(t), false), STARTS_BEFORE)
    ensures forall c :: Holds(u, u, c) <==>
      || c in {EXACT, STARTS_WITHIN, ENDS_WITHIN, OVERLAPS, INCLUDES}
      || (c == PREVIOUS_BEFORE_END_OF && Lo(u) < Hi(u))
  {
    RankFields(u, t);
    RankFields(t, u);
  }

  /** When a scan stops after looking at `u`. */
  ghost predicate Finishes(u: Time, t: Time, c: TemporalRelationship) {
    match c
    case EXACT => u == t
    case OVERLAPS => !Holds(u, t, c) && Lo(u) > Hi(t)
    case INCLUDES => !Holds(u, t, c) && Lo(u) > Lo(t)
    case STARTS_BEFORE => !Holds(u, t, c) && Lo(u) >= Lo(t)
    case STARTS_WITHIN => !Holds(u, t, c) && Lo(u) > Hi(t)
    case STARTS_AFTER => false
    case ENDS_BEFORE => !Holds(u, t, c) && Lo(u) >= Lo(t)
    case ENDS_WITHIN => !Holds(u, t, c) && Lo(u) > Hi(t)
    case ENDS_AFTER => false
    case NEXT_AFTER_START_OF => Holds(u, t, c)
    case NEXT_AFTER_END_OF => Holds(u, t, c)
    case PREVIOUS_BEFORE_START_OF => !Holds(u, t, c)
    case PREVIOUS_BEFORE_END_OF => !Holds(u, t, c)
  }

  method MatchesTimeCriterion(time: Time, t: Time, criterion: TemporalRelationship)
    returns (matches: bool, searchFinished: bool)
    ensures matches <==> Holds(time, t, criterion)
    ensures searchFinished <==> Finishes(time, t, criterion)
  {
    CompareToIsRank(time, t);
    CompareToIsRank(t, time);
    hide Rank, Lo, Hi;
    searchFinished := false;
    match criterion {
      case EXACT =>
        matches := t == time;
        if matches { searchFinished := true; }
      case OVERLAPS =>
        matches := t.LowerBound() <= time.UpperBound() && t.UpperBound() >= time.LowerBound();
        if !matches && time.LowerBound() > t.UpperBound() { searchFinished := true; }
      case INCLUDES =>
        matches := time.LowerBound() <= t.LowerBound() && time.UpperBound() >= t.UpperBound();
        if !matches && time.LowerBound() > t.LowerBound() { searchFinished := true; }
      case STARTS_BEFORE =>
        matches := time.LowerBound() < t.LowerBound();
        if !matches && time.LowerBound() >= t.LowerBound() { searchFinished := true; }
      case STARTS_WITHIN =>
        matches := time.LowerBound() >= t.LowerBound() && time.LowerBound() <= t.UpperBound();
        if !matches && time.LowerBound() > t.UpperBound() { searchFinished := true; }
      case STARTS_AFTER =>
        matches := time.LowerBound() > t.UpperBound();
      case ENDS_BEFORE =>
        matches := time.UpperBound() < t.LowerBound();
        if !matches && time.LowerBound() >= t.LowerBound() { searchFinished := true; }
      case ENDS_WITHIN =>
        matches := time.UpperBound() >= t.LowerBound() && time.UpperBound() <= t.UpperBound();
        if !matches && time.LowerBound() > t.UpperBound() { searchFinished := true; }
      case ENDS_AFTER =>
        matches := time.UpperBound() > t.UpperBound();
      case NEXT_AFTER_START_OF =>
        matches := time.LowerBound() > t.LowerBound();
        if matches { searchFinished := true; }
      case NEXT_AFTER_END_OF =>
        matches := time.LowerBound() > t.UpperBound();
        if matches { searchFinished := true; }
      case PREVIOUS_BEFORE_START_OF =>
        matches := time.LowerBound() < t.LowerBound();
        if !matches { searchFinished := true; }
      case PREVIOUS_BEFORE_END_OF =>
        matches := time.LowerBound() < t.UpperBound();
        if !matches { searchFinished := true; }
    }
  }

  /** Nothing a search for more than the next time looks for comes after the time it stops at. */
  lemma NothingAfterStop(u: Time, v: Time, t: Time, c: TemporalRelationship)
    requires Finishes(u, t, c) && Rank(u) < Rank(v) && !c.Next()
    ensures !Holds(v, t, c)
  {
    RankFields(u, v);
    RankFields(v, v);
    RankFields(t, t);
  }

  // ------------------------------------------------------- times that wrap

  /** What the test computes, for any two times: with the bounds as machine words. */
  predicate MatchesInWords(u: Temporal, t: Temporal, c: TemporalRelationship) {
    match c
    case EXACT => u == t
    case STARTS_BEFORE => u.LowerBound() < t.LowerBound()
    case STARTS_WITHIN => t.LowerBound() <= u.LowerBound() <= t.UpperBound()
    case STARTS_AFTER => u.LowerBound() > t.UpperBound()
    case ENDS_BEFORE => u.UpperBound() < t.LowerBound()
    case ENDS_WITHIN => t.LowerBound() <= u.UpperBound() <= t.UpperBound()
    case ENDS_AFTER => u.UpperBound() > t.UpperBound()
    case OVERLAPS => t.LowerBound() <= u.UpperBound() && u.LowerBound() <= t.UpperBound()
    case INCLUDES => u.LowerBound() <= t.LowerBound() && u.UpperBound() >= t.UpperBound()
    case NEXT_AFTER_START_OF => u.LowerBound() > t.LowerBound()
    case NEXT_AFTER_END_OF => u.LowerBound() > t.UpperBound()
    case PREVIOUS_BEFORE_START_OF => u.LowerBound() < t.LowerBound()
    case PREVIOUS_BEFORE_END_OF => u.LowerBound() < t.UpperBound()
  }

  predicate StopsInWords(u: Temporal, t: Temporal, c: TemporalRelationship) {
    match c
    case EXACT => u == t
    case OVERLAPS => !MatchesInWords(u, t, c) && u.LowerBound() > t.UpperBound()
    case INCLUDES => !MatchesInWords(u, t, c) && u.LowerBound() > t.LowerBound()
    case STARTS_BEFORE => !MatchesInWords(u, t, c) && u.LowerBound() >= t.LowerBound()
    case STARTS_WITHIN => !MatchesInWords(u, t, c) && u.LowerBound() > t.UpperBound()
    case STARTS_AFTER => false
    case ENDS_BEFORE => !MatchesInWords(u, t, c) && u.LowerBound() >= t.LowerBound()
    case ENDS_WITHIN => !MatchesInWords(u, t, c) && u.LowerBound() > t.UpperBound()
    case ENDS_AFTER => false
    case NEXT_AFTER_START_OF => MatchesInWords(u, t, c)
    case NEXT_AFTER_END_OF => MatchesInWords(u, t, c)
    case PREVIOUS_BEFORE_START_OF => !MatchesInWords(u, t, c)
    case PREVIOUS_BEFORE_END_OF => !MatchesInWords(u, t, c)
  }

  /** For documented times this is the documented meaning. */
  lemma InWordsIsMeaning(u: Time, t: Time, c: TemporalRelationship)
    ensures MatchesInWords(u, t, c) <==> Holds(u, t, c)
    ensures StopsInWords(u, t, c) <==> Finishes(u, t, c)
  {
    CompareToIsRank(u, t);
    CompareToIsRank(t, u);
  }

  ghost predicate Made(t: Temporal) {
    t.Words() && Init(t.a, t.b, t.normal).Success?
  }

  /** A scan for something else than the next time stops at `x`, which comes before the
      match `u`. */
  ghost predicate LostBehind(u: Temporal, x: Temporal, t: Temporal, c: TemporalRelationship) {
    && Made(x) && Made(t) && x.CompareTo(u) < 0 && !c.Next()
    && StopsInWords(x, t, c) && MatchesInWords(u, t, c)
  }

  /** A stored time can be lost to a scan exactly if it ends before it starts: if it is a wrapped time
      whose variance is below half the word. */
  lemma LostIfWrapped(u: Temporal)
    requires Made(u)
    ensures (exists x, t, c :: LostBehind(u, x, t, c)) <==> u.LowerBound() > u.UpperBound()
    ensures u.LowerBound() > u.UpperBound() <==> u.Wrapped() && u.b < ULONG_HALF
  {
    InitAccepts(u.a, u.b, u.normal);
    BoundsInWords(u);
    if u.LowerBound() > u.UpperBound() {
      var v := Temporal(u.UpperBound() + 1, u.UpperBound() + 1, false);
      assert LostBehind(u, v, v, ENDS_BEFORE) by {
        WrappedEnds(u);
      }
    } else {
      forall x, t, c ensures !LostBehind(u, x, t, c) {
        NotLost(u, x, t, c);
      }
    }
  }

  lemma WrappedEnds(u: Temporal)
    requires Made(u) && u.LowerBound() > u.UpperBound()
    ensures u.UpperBound() + 1 < u.LowerBound() < ULONG_MODULUS && u.UpperBound() >= 0
  {
    InitAccepts(u.a, u.b, u.normal);
    BoundsInWords(u);
  }

  lemma NotLost(u: Temporal, x: Temporal, t: Temporal, c: TemporalRelationship)
    requires Made(u) && u.LowerBound() <= u.UpperBound()
    ensures !LostBehind(u, x, t, c)
  {
  }

  ghost function TimeSet(ts: seq<Time>): set<Time> {
    set u | u in ts
  }

  /** What a scan over a prefix has matched. */
  ghost function Matched(ts: seq<Time>, t: Temporal, c: TemporalRelationship): set<Time>
    requires t.Proper() || t == UNDEFINED_TEMPORAL
  {
    set u | u in ts && (t == UNDEFINED_TEMPORAL || Holds(u, t, c))
  }

  ghost predicate Increasing(ts: seq<Time>) {
    forall i, j :: 0 <= i < j < |ts| ==> Rank(ts[i]) < Rank(ts[j])
  }

  /** A scan that has looked at the first `k` times, and at no time after one that finishes it. */
  ghost predicate Scanned(ts: seq<Time>, k: nat, finished: bool, t: Temporal, c: TemporalRelationship)
    requires t.Proper() || t == UNDEFINED_TEMPORAL
  {
    && k <= |ts|
    && (t == UNDEFINED_TEMPORAL ==> !finished)
    && (t != UNDEFINED_TEMPORAL ==>
          (forall i :: 0 <= i < k - 1 ==> !Finishes(ts[i], t, c))
          && (k > 0 ==> (finished <==> Finishes(ts[k - 1], t, c)))
          && (k == 0 ==> !finished))
  }

  lemma MatchedNext(ts: seq<Time>, k: nat, t: Temporal, c: TemporalRelationship)
    requires t.Proper() || t == UNDEFINED_TEMPORAL
    requires k < |ts|
    ensures Matched(ts[..k + 1], t, c) ==
      Matched(ts[..k], t, c) + if t == UNDEFINED_TEMPORAL || Holds(ts[k], t, c) then {ts[k]} else {}
  {
    hide Rank, Holds;
    assert ts[..k + 1] == ts[..k] + [ts[k]];
  }

  /** Stopping early loses nothing: what was matched is what was to be found. */
  lemma ScanComplete(ts: seq<Time>, k: nat, finished: bool, t: Temporal, c: TemporalRelationship)
    requires t.Proper() || t == UNDEFINED_TEMPORAL
    requires Increasing(ts) && Scanned(ts, k, finished, t, c)
    requires finished || k == |ts|
    ensures t == UNDEFINED_TEMPORAL || !c.Previous() ==> Selected(TimeSet(ts), t, c) == Matched(ts[..k], t, c)
  {
    hide Rank, Holds, Finishes;
    if t == UNDEFINED_TEMPORAL {
      assert ts[..k] == ts;
    } else if c.Next() {
      NextComplete(ts, k, finished, t, c);
    } else {
      LaterDoNotHold(ts, k, finished, t, c);
      assert forall u :: u in ts && Holds(u, t, c) ==> u in ts[..k];
    }
  }

  lemma LaterDoNotHold(ts: seq<Time>, k: nat, finished: bool, t: Time, c: TemporalRelationship)
    requires t != UNDEFINED_TEMPORAL && !c.Next()
    requires Increasing(ts) && Scanned(ts, k, finished, t, c)
    requires finished || k == |ts|
    ensures forall u :: u in ts && Holds(u, t, c) ==> u in ts[..k]
  {
    hide Rank, Holds, Finishes;
    forall u | u in ts && Holds(u, t, c) ensures u in ts[..k] {
      var i :| 0 <= i < |ts| && ts[i] == u;
      if i >= k {
        NothingAfterStop(ts[k - 1], u, t, c);
      } else {
        assert ts[..k][i] == u;
      }
    }
  }

  lemma NextComplete(ts: seq<Time>, k: nat, finished: bool, t: Time, c: TemporalRelationship)
    requires t != UNDEFINED_TEMPORAL && c.Next()
    requires Increasing(ts) && Scanned(ts, k, finished, t, c)
    requires finished || k == |ts|
    ensures Selected(TimeSet(ts), t, c) == Matched(ts[..k], t, c)
  {
    hide Rank, Holds;
    forall i | 0 <= i < k - 1 ensures !Holds(ts[i], t, c) {
      assert !Finishes(ts[i], t, c);
    }
    if finished {
      assert Matched(ts[..k], t, c) == {ts[k - 1]} by {
        assert ts[..k][k - 1] == ts[k - 1];
      }
      FirstSelected(ts, k - 1, t, c);
    } else {
      assert ts[..k] == ts;
      assert forall i :: 0 <= i < k ==> !Holds(ts[i], t, c);
    }
  }

  lemma FirstSelected(ts: seq<Time>, i: nat, t: Time, c: TemporalRelationship)
    requires t != UNDEFINED_TEMPORAL && c.Next() && Increasing(ts)
    requires i < |ts| && Holds(ts[i], t, c) && forall j :: 0 <= j < i ==> !Holds(ts[j], t, c)
    ensures Selected(TimeSet(ts), t, c) == {ts[i]}
  {
    hide Rank, Holds;
    forall v | v in ts && Holds(v, t, c) ensures Rank(ts[i]) < Rank(v) || v == ts[i] {
      var j :| 0 <= j < |ts| && ts[j] == v;
    }
  }

  /** The last match of a scan for the previous time is the greatest candidate. */
  lemma PreviousComplete(ts: seq<Time>, k: nat, finished: bool, t: Time, c: TemporalRelationship, p: int)
    requires t != UNDEFINED_TEMPORAL && c.Previous()
    requires Increasing(ts) && Scanned(ts, k, finished, t, c)
    requires finished || k == |ts|
    requires -1 <= p < k && (p >= 0 ==> Holds(ts[p], t, c))
    requires forall i :: p < i < k ==> !Holds(ts[i], t, c)
    ensures Selected(TimeSet(ts), t, c) == if p >= 0 then {ts[p]} else {}
  {
    hide Rank, Holds, Finishes;
    LaterDoNotHold(ts, k, finished, t, c);
    forall v | v in ts && Holds(v, t, c) ensures p >= 0 && (Rank(v) < Rank(ts[p]) || v == ts[p]) {
      var j :| 0 <= j < k && ts[..k][j] == v;
    }
    if p >= 0 {
      assert ts[p] in ts;
    }
  }
}
