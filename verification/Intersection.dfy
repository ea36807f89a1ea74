/** The intersection of many sorted arrays of handles (opencog/atomspace/HandleEntry.cc). */
module HandleIntersections {
  import opened Handles

  // ------------------------------------------------------- what is left behind the cursors

  ghost predicate AllSorted(sets: seq<seq<Handle>>) {
    forall j :: 0 <= j < |sets| ==> Sorted(sets[j])
  }

  ghost predicate CursorsOk(sets: seq<seq<Handle>>, cs: seq<nat>) {
    |cs| == |sets| && forall j :: 0 <= j < |sets| ==> cs[j] <= |sets[j]|
  }

  /** How often a handle is left in array `j`. */
  ghost function Left(sets: seq<seq<Handle>>, cs: seq<nat>, j: nat, h: Handle): nat
    requires CursorsOk(sets, cs) && j < |sets|
  {
    Count(sets[j][cs[j]..], h)
  }

  /** How often a handle is left in all of the first `n` arrays. */
  ghost function MinLeft(sets: seq<seq<Handle>>, cs: seq<nat>, n: nat, h: Handle): nat
    requires CursorsOk(sets, cs) && 0 < n <= |sets|
  {
    if n == 1 then Left(sets, cs, 0, h)
    else
      var m, k := MinLeft(sets, cs, n - 1, h), Left(sets, cs, n - 1, h);
      if k < m then k else m
  }

  /** It is the least of the numbers. */
  lemma {:induction false} MinLeftIsMin(sets: seq<seq<Handle>>, cs: seq<nat>, n: nat, h: Handle)
    requires CursorsOk(sets, cs) && 0 < n <= |sets|
    ensures forall j :: 0 <= j < n ==> MinLeft(sets, cs, n, h) <= Left(sets, cs, j, h)
    ensures exists j :: 0 <= j < n && MinLeft(sets, cs, n, h) == Left(sets, cs, j, h)
  {
    if n > 1 {
      MinLeftIsMin(sets, cs, n - 1, h);
      var j :| 0 <= j < n - 1 && MinLeft(sets, cs, n - 1, h) == Left(sets, cs, j, h);
      if MinLeft(sets, cs, n, h) != Left(sets, cs, n - 1, h) {
        assert MinLeft(sets, cs, n, h) == Left(sets, cs, j, h);
      }
    } else {
      assert MinLeft(sets, cs, n, h) == Left(sets, cs, 0, h);
    }
  }

  lemma {:induction false} MinLeftNone(sets: seq<seq<Handle>>, cs: seq<nat>, n: nat, h: Handle, j: nat)
    requires CursorsOk(sets, cs) && j < n <= |sets| && Left(sets, cs, j, h) == 0
    ensures MinLeft(sets, cs, n, h) == 0
  {
    MinLeftIsMin(sets, cs, n, h);
  }

  lemma {:induction false} MinLeftShift(sets: seq<seq<Handle>>, cs: seq<nat>, cs': seq<nat>, n: nat, h: Handle, d: nat)
    requires CursorsOk(sets, cs) && CursorsOk(sets, cs') && 0 < n <= |sets|
    requires forall j :: 0 <= j < n ==> Left(sets, cs, j, h) == Left(sets, cs', j, h) + d
    ensures MinLeft(sets, cs, n, h) == MinLeft(sets, cs', n, h) + d
  {
    hide Left;
    if n > 1 {
      MinLeftShift(sets, cs, cs', n - 1, h, d);
    }
  }

  lemma LeftNext(s: seq<Handle>, c: nat, h: Handle)
    requires c < |s|
    ensures Count(s[c..], h) == Count(s[c + 1..], h) + if h == s[c] then 1 else 0
  {
    assert s[c..] == [s[c]] + s[c + 1..];
  }

  lemma LeftAbove(s: seq<Handle>, c: nat, h: Handle)
    requires Sorted(s) && c <= |s| && (c < |s| ==> h < s[c])
    ensures Count(s[c..], h) == 0
  {
    assert h !in s[c..];
  }

  /** Moving one cursor past a handle that another array has left behind loses nothing. */
  lemma SkipKeeps(sets: seq<seq<Handle>>, cs: seq<nat>, j: nat, i: nat, h: Handle)
    requires AllSorted(sets) && CursorsOk(sets, cs) && j < |sets| && i < |sets|
    requires cs[j] < |sets[j]| && cs[i] < |sets[i]| && sets[j][cs[j]] < sets[i][cs[i]]
    ensures CursorsOk(sets, cs[j := cs[j] + 1])
    ensures MinLeft(sets, cs[j := cs[j] + 1], |sets|, h) == MinLeft(sets, cs, |sets|, h)
  {
    var cs' := cs[j := cs[j] + 1];
    if h == sets[j][cs[j]] {
      LeftAbove(sets[i], cs[i], h);
      MinLeftNone(sets, cs, |sets|, h, i);
      MinLeftNone(sets, cs', |sets|, h, i);
    } else {
      forall k | 0 <= k < |sets| ensures Left(sets, cs, k, h) == Left(sets, cs', k, h) {
        if k == j {
          LeftNext(sets[j], cs[j], h);
        }
      }
      MinLeftShift(sets, cs, cs', |sets|, h, 0);
    }
  }

  /** Moving every cursor past the handle that all of them are at takes one common occurrence. */
  lemma MatchTakesOne(sets: seq<seq<Handle>>, cs: seq<nat>, cs': seq<nat>, x: Handle, h: Handle)
    requires CursorsOk(sets, cs) && CursorsOk(sets, cs') && |sets| > 0
    requires forall j :: 0 <= j < |sets| ==> cs[j] < |sets[j]| && sets[j][cs[j]] == x && cs'[j] == cs[j] + 1
    ensures MinLeft(sets, cs, |sets|, h) == MinLeft(sets, cs', |sets|, h) + if h == x then 1 else 0
  {
    forall j | 0 <= j < |sets| ensures Left(sets, cs, j, h) == Left(sets, cs', j, h) + if h == x then 1 else 0 {
      LeftNext(sets[j], cs[j], h);
    }
    MinLeftShift(sets, cs, cs', |sets|, h, if h == x then 1 else 0);
  }

  /** An exhausted array leaves nothing in common. */
  lemma ExhaustedMeansNone(sets: seq<seq<Handle>>, cs: seq<nat>, j: nat, h: Handle)
    requires CursorsOk(sets, cs) && j < |sets| && cs[j] == |sets[j]|
    ensures MinLeft(sets, cs, |sets|, h) == 0
  {
    assert sets[j][cs[j]..] == [];
    MinLeftNone(sets, cs, |sets|, h, j);
  }

  /** The same is left in common at both places. */
  ghost predicate SameLeft(sets: seq<seq<Handle>>, cs: seq<nat>, cs': seq<nat>) {
    && CursorsOk(sets, cs) && CursorsOk(sets, cs')
    && (|sets| > 0 ==> forall h :: MinLeft(sets, cs, |sets|, h) == MinLeft(sets, cs', |sets|, h))
  }

  ghost predicate NoneLeft(sets: seq<seq<Handle>>, cs: seq<nat>) {
    && CursorsOk(sets, cs)
    && (|sets| > 0 ==> forall h :: MinLeft(sets, cs, |sets|, h) == 0)
  }

  lemma NoneLeftThere(sets: seq<seq<Handle>>, cs: seq<nat>, cs': seq<nat>, j: nat)
    requires SameLeft(sets, cs, cs') && j < |sets| && cs'[j] == |sets[j]|
    ensures NoneLeft(sets, cs)
  {
    forall h ensures MinLeft(sets, cs, |sets|, h) == 0 {
      ExhaustedMeansNone(sets, cs', j, h);
    }
  }

  lemma SameLeftSkip(sets: seq<seq<Handle>>, cs: seq<nat>, cs': seq<nat>, j: nat, i: nat)
    requires SameLeft(sets, cs, cs') && AllSorted(sets) && j < |sets| && i < |sets|
    requires cs'[j] < |sets[j]| && cs'[i] < |sets[i]| && sets[j][cs'[j]] < sets[i][cs'[i]]
    ensures SameLeft(sets, cs, cs'[j := cs'[j] + 1])
  {
    forall h ensures MinLeft(sets, cs, |sets|, h) == MinLeft(sets, cs'[j := cs'[j] + 1], |sets|, h) {
      SkipKeeps(sets, cs', j, i, h);
    }
  }

  /** How far the cursors are from the ends of the first `n` arrays. */
  ghost function Distance(sets: seq<seq<Handle>>, cs: seq<nat>, n: nat): nat
    requires CursorsOk(sets, cs) && n <= |sets|
  {
    if n == 0 then 0 else Distance(sets, cs, n - 1) + (|sets[n - 1]| - cs[n - 1])
  }

  lemma {:induction false} DistanceShrinks(sets: seq<seq<Handle>>, cs: seq<nat>, cs': seq<nat>, n: nat)
    requires CursorsOk(sets, cs) && CursorsOk(sets, cs') && n <= |sets|
    requires forall j :: 0 <= j < n ==> cs[j] <= cs'[j]
    ensures Distance(sets, cs', n) <= Distance(sets, cs, n)
    ensures (exists j :: 0 <= j < n && cs[j] < cs'[j]) ==> Distance(sets, cs', n) < Distance(sets, cs, n)
  {
    if n > 0 {
      DistanceShrinks(sets, cs, cs', n - 1);
    }
  }

  function One(h: Handle, x: Handle): nat {
    if h == x then 1 else 0
  }

  /** One common occurrence of `x` has been passed. */
  ghost predicate TakenOne(sets: seq<seq<Handle>>, cs: seq<nat>, cs': seq<nat>, x: Handle) {
    && CursorsOk(sets, cs) && CursorsOk(sets, cs')
    && (|sets| > 0 ==> forall h :: MinLeft(sets, cs, |sets|, h) == MinLeft(sets, cs', |sets|, h) + One(h, x))
  }

  // ------------------------------------------------------- the search

  /** Where the first arrays' cursors are, whether they agree, and the largest handle under a cursor. */
  method Inspect(sets: seq<seq<Handle>>, cursors: array<nat>) returns (done: bool, fail: bool, top: nat)
    requires CursorsOk(sets, cursors[..]) && |sets| > 0
    ensures done ==> exists j :: 0 <= j < |sets| && cursors[j] == |sets[j]|
    ensures !done ==> forall j :: 0 <= j < |sets| ==> cursors[j] < |sets[j]|
    ensures !done ==> top < |sets| && forall j :: 0 <= j < |sets| ==> sets[j][cursors[j]] <= sets[top][cursors[top]]
    ensures !done ==> (fail <==> exists j :: 0 <= j < |sets| && sets[j][cursors[j]] != sets[0][cursors[0]])
  {
    done, fail, top := false, false, 0;
    if cursors[0] >= |sets[0]| {
      return true, false, 0;
    }
    for j := 0 to |sets|
      invariant top < |sets| && cursors[0] < |sets[0]| && cursors[top] < |sets[top]|
      invariant forall k :: 0 <= k < j ==> cursors[k] < |sets[k]| && sets[k][cursors[k]] <= sets[top][cursors[top]]
      invariant fail <==> exists k :: 0 <= k < j && sets[k][cursors[k]] != sets[0][cursors[0]]
    {
      if cursors[j] >= |sets[j]| {
        return true, fail, top;
      }
      if sets[j][cursors[j]] > sets[top][cursors[top]] {
        top := j;
      }
      if sets[0][cursors[0]] != sets[j][cursors[j]] {
        fail := true;
      }
    }
  }

  /** Moves one cursor to the next handle that is not below the one under cursor `top`. */
  method Advance(sets: seq<seq<Handle>>, cursors: array<nat>, j: nat, top: nat, ghost before: seq<nat>)
    returns (done: bool)
    requires cursors.Length == |sets| && AllSorted(sets) && j < |sets| && top < |sets|
    requires cursors[j] < |sets[j]| && cursors[top] < |sets[top]|
    requires SameLeft(sets, before, cursors[..])
    modifies cursors
    ensures SameLeft(sets, before, cursors[..])
    ensures forall k :: 0 <= k < |sets| && k != j ==> cursors[k] == old(cursors[k])
    ensures old(cursors[j]) <= cursors[j] && (done <==> cursors[j] == |sets[j]|) && (!done ==> cursors[j] < |sets[j]|)
    ensures old(sets[j][cursors[j]] < sets[top][cursors[top]]) ==> old(cursors[j]) < cursors[j]
    ensures old(sets[j][cursors[j]] >= sets[top][cursors[top]]) ==> cursors[j] == old(cursors[j])
  {
    hide SameLeft, AllSorted;
    while sets[j][cursors[j]] < sets[top][cursors[top]]
      invariant SameLeft(sets, before, cursors[..])
      invariant forall k :: 0 <= k < |sets| && k != j ==> cursors[k] == old(cursors[k])
      invariant old(cursors[j]) <= cursors[j] < |sets[j]|
      invariant old(sets[j][cursors[j]] < sets[top][cursors[top]]) && cursors[j] == old(cursors[j]) ==>
        sets[j][cursors[j]] < sets[top][cursors[top]]
      invariant old(sets[j][cursors[j]] >= sets[top][cursors[top]]) ==> cursors[j] == old(cursors[j])
      decreases |sets[j]| - cursors[j]
    {
      ghost var cs := cursors[..];
      SameLeftSkip(sets, before, cs, j, top);
      cursors[j] := cursors[j] + 1;
      assert cursors[..] == cs[j := cs[j] + 1];
      if cursors[j] >= |sets[j]| {
        InRange(sets, before, cursors[..], j);
        return true;
      }
    }
    return false;
  }

  lemma InRange(sets: seq<seq<Handle>>, before: seq<nat>, cs: seq<nat>, j: nat)
    requires SameLeft(sets, before, cs) && j < |sets|
    ensures cs[j] <= |sets[j]|
  {
  }

  /** Moves every cursor to the next handle that is not below the largest one. */
  method Reposition(sets: seq<seq<Handle>>, cursors: array<nat>, top: nat) returns (done: bool)
    requires CursorsOk(sets, cursors[..]) && AllSorted(sets) && top < |sets|
    requires forall j :: 0 <= j < |sets| ==> cursors[j] < |sets[j]|
    requires exists j :: 0 <= j < |sets| && sets[j][cursors[j]] < sets[top][cursors[top]]
    modifies cursors
    ensures SameLeft(sets, old(cursors[..]), cursors[..])
    ensures forall j :: 0 <= j < |sets| ==> old(cursors[j]) <= cursors[j]
    ensures done ==> exists j :: 0 <= j < |sets| && cursors[j] == |sets[j]|
    ensures !done ==> exists j :: 0 <= j < |sets| && old(cursors[j]) < cursors[j]
  {
    ghost var before := cursors[..];
    assert SameLeft(sets, before, cursors[..]);
    hide SameLeft, AllSorted;
    ghost var low :| 0 <= low < |sets| && sets[low][cursors[low]] < sets[top][cursors[top]];
    for j := 0 to |sets|
      invariant SameLeft(sets, before, cursors[..])
      invariant cursors[top] == before[top]
      invariant forall k :: 0 <= k < |sets| ==> before[k] <= cursors[k] < |sets[k]|
      invariant forall k :: j <= k < |sets| ==> cursors[k] == before[k]
      invariant low < j ==> before[low] < cursors[low]
    {
      done := Advance(sets, cursors, j, top, before);
      if done {
        return true;
      }
    }
    return false;
  }

  /** Finds the next handle that all arrays hold; gives its position in the first array, or -1. */
  method NextMatch(sets: seq<seq<Handle>>, cursors: array<nat>) returns (pos: int)
    requires CursorsOk(sets, cursors[..]) && AllSorted(sets) && |sets| > 0
    modifies cursors
    ensures CursorsOk(sets, cursors[..])
    ensures pos < 0 ==> NoneLeft(sets, old(cursors[..]))
    ensures pos >= 0 ==> old(cursors[0]) <= pos < |sets[0]| && cursors[0] == pos + 1
    ensures pos >= 0 ==> TakenOne(sets, old(cursors[..]), cursors[..], sets[0][pos])
  {
    hide MinLeft, Left, Distance;
    ghost var before := cursors[..];
    while true
      invariant SameLeft(sets, before, cursors[..])
      invariant before[0] <= cursors[0]
      decreases Distance(sets, cursors[..], |sets|)
    {
      ghost var here := cursors[..];
      var done, fail, top := Inspect(sets, cursors);
      if done {
        ghost var j :| 0 <= j < |sets| && cursors[j] == |sets[j]|;
        NoneLeftThere(sets, before, cursors[..], j);
        return -1;
      }
      if fail {
        done := Reposition(sets, cursors, top);
        SameLeftAgain(sets, before, here, cursors[..]);
        if done {
          ghost var j :| 0 <= j < |sets| && cursors[j] == |sets[j]|;
          NoneLeftThere(sets, before, cursors[..], j);
          return -1;
        }
        DistanceShrinks(sets, here, cursors[..], |sets|);
      } else {
        for j := 0 to |sets|
          invariant forall k :: 0 <= k < j ==> cursors[k] == here[k] + 1
          invariant forall k :: j <= k < |sets| ==> cursors[k] == here[k]
        {
          cursors[j] := cursors[j] + 1;
        }
        AllMoved(sets, before, here, cursors[..]);
        return cursors[0] - 1;
      }
    }
  }

  lemma SameLeftAgain(sets: seq<seq<Handle>>, a: seq<nat>, b: seq<nat>, c: seq<nat>)
    requires SameLeft(sets, a, b) && SameLeft(sets, b, c)
    ensures SameLeft(sets, a, c)
  {
    hide MinLeft;
  }

  lemma AllMoved(sets: seq<seq<Handle>>, before: seq<nat>, here: seq<nat>, now: seq<nat>)
    requires SameLeft(sets, before, here) && |now| == |sets| > 0 && here[0] < |sets[0]|
    requires forall j :: 0 <= j < |sets| ==>
      here[j] < |sets[j]| && sets[j][here[j]] == sets[0][here[0]] && now[j] == here[j] + 1
    ensures TakenOne(sets, before, now, sets[0][here[0]])
  {
    var x := sets[0][here[0]];
    forall h ensures MinLeft(sets, before, |sets|, h) == MinLeft(sets, now, |sets|, h) + One(h, x) {
      MatchTakesOne(sets, here, now, x, h);
    }
  }

  // ------------------------------------------------------- the intersection

  /** How often a handle occurs in every one of the lists: the least number over the lists. */
  ghost function CommonCount(lists: seq<seq<Handle>>, h: Handle): nat
    requires |lists| > 0
  {
    if |lists| == 1 then Count(lists[0], h)
    else
      var n := |lists| - 1;
      var m, k := CommonCount(lists[..n], h), Count(lists[n], h);
      if k < m then k else m
  }

  lemma {:induction false} MinLeftAtStart(lists: seq<seq<Handle>>, cs: seq<nat>, n: nat, h: Handle)
    requires CursorsOk(lists, cs) && 0 < n <= |lists| && forall j :: 0 <= j < n ==> cs[j] == 0
    ensures MinLeft(lists, cs, n, h) == CommonCount(lists[..n], h)
  {
    assert lists[n - 1][0..] == lists[n - 1];
    if n > 1 {
      MinLeftAtStart(lists, cs, n - 1, h);
      assert lists[..n][..n - 1] == lists[..n - 1];
    }
  }

  /** Sorting the lists does not change how often handles occur in them. */
  lemma {:induction false} CommonCountSorted(lists: seq<seq<Handle>>, sorted: seq<seq<Handle>>, h: Handle)
    requires |lists| == |sorted| > 0
    requires forall j :: 0 <= j < |lists| ==> multiset(sorted[j]) == multiset(lists[j])
    ensures CommonCount(sorted, h) == CommonCount(lists, h)
  {
    if |lists| > 1 {
      var n := |lists| - 1;
      CommonCountSorted(lists[..n], sorted[..n], h);
    }
  }

  lemma {:induction false} CommonCountEmpty(lists: seq<seq<Handle>>, j: nat, h: Handle)
    requires j < |lists| && lists[j] == []
    ensures CommonCount(lists, h) == 0
  {
    if |lists| > 1 && j < |lists| - 1 {
      CommonCountEmpty(lists[..|lists| - 1], j, h);
    }
  }

  /** A handle is in the intersection exactly if it is in every list. */
  lemma {:induction false} CommonMeansInAll(lists: seq<seq<Handle>>, h: Handle)
    requires |lists| > 0
    ensures CommonCount(lists, h) > 0 <==> forall j :: 0 <= j < |lists| ==> h in lists[j]
  {
    var n := |lists| - 1;
    assert Count(lists[n], h) > 0 <==> h in lists[n];
    if n > 0 {
      CommonMeansInAll(lists[..n], h);
      assert forall j :: 0 <= j < n ==> lists[..n][j] == lists[j];
    }
  }

  /** The number of common occurrences is the least that a list has. */
  lemma {:induction false} CommonCountIsLeast(lists: seq<seq<Handle>>, h: Handle)
    requires |lists| > 0
    ensures forall j :: 0 <= j < |lists| ==> CommonCount(lists, h) <= Count(lists[j], h)
    ensures exists j :: 0 <= j < |lists| && CommonCount(lists, h) == Count(lists[j], h)
  {
    hide Count;
    var n := |lists| - 1;
    if n > 0 {
      CommonCountIsLeast(lists[..n], h);
      var j :| 0 <= j < n && CommonCount(lists[..n], h) == Count(lists[..n][j], h);
      assert lists[..n][j] == lists[j];
      forall k | 0 <= k < |lists| ensures CommonCount(lists, h) <= Count(lists[k], h) {
        assert k < n ==> lists[..n][k] == lists[k];
      }
      assert CommonCount(lists, h) == Count(lists[j], h) || CommonCount(lists, h) == Count(lists[n], h);
    } else {
      assert CommonCount(lists, h) == Count(lists[0], h);
    }
  }

  lemma CountAppend(s: seq<Handle>, x: Handle)
    ensures forall h :: Count(s + [x], h) == Count(s, h) + One(h, x)
  {
  }

  /** All that the answer holds so far, and all that is left in common, is what was in common. */
  ghost predicate Collected(sets: seq<seq<Handle>>, start: seq<nat>, cs: seq<nat>, answer: seq<Handle>) {
    && CursorsOk(sets, start) && CursorsOk(sets, cs)
    && (|sets| > 0 ==> forall h :: MinLeft(sets, start, |sets|, h) == Count(answer, h) + MinLeft(sets, cs, |sets|, h))
  }

  lemma CollectedNext(sets: seq<seq<Handle>>, start: seq<nat>, cs: seq<nat>, cs': seq<nat>, answer: seq<Handle>,
                      x: Handle)
    requires Collected(sets, start, cs, answer) && TakenOne(sets, cs, cs', x)
    ensures Collected(sets, start, cs', answer + [x])
  {
    hide MinLeft, Count;
    CountAppend(answer, x);
  }

  lemma CollectedAll(sets: seq<seq<Handle>>, start: seq<nat>, cs: seq<nat>, answer: seq<Handle>)
    requires Collected(sets, start, cs, answer) && NoneLeft(sets, cs) && |sets| > 0
    requires forall j :: 0 <= j < |sets| ==> start[j] == 0
    ensures forall h :: Count(answer, h) == CommonCount(sets, h)
  {
    hide Count;
    forall h ensures Count(answer, h) == CommonCount(sets, h) {
      MinLeftAtStart(sets, start, |sets|, h);
      assert sets[..|sets|] == sets;
    }
  }

  lemma SortedAppend(s: seq<Handle>, x: Handle)
    requires Sorted(s) && (s != [] ==> s[|s| - 1] <= x)
    ensures Sorted(s + [x])
  {
  }

  method IntersectSorted(sets: seq<seq<Handle>>) returns (answer: seq<Handle>)
    requires |sets| > 0 && AllSorted(sets)
    ensures Sorted(answer) && forall h :: Count(answer, h) == CommonCount(sets, h)
  {
    var cursors := new nat[|sets|](_ => 0);
    ghost var start := cursors[..];
    answer := [];
    assert CursorsOk(sets, start);
    assert Collected(sets, start, cursors[..], answer);
    hide Collected, MinLeft, TakenOne, NoneLeft;
    var pos := NextMatch(sets, cursors);
    ghost var here: seq<nat> := start;
    while pos >= 0
      invariant CursorsOk(sets, cursors[..])
      invariant CursorsOk(sets, here) && Collected(sets, start, here, answer)
      invariant pos < 0 ==> NoneLeft(sets, here)
      invariant pos >= 0 ==>
        here[0] <= pos < |sets[0]| && cursors[0] == pos + 1 && TakenOne(sets, here, cursors[..], sets[0][pos])
      invariant Sorted(answer)
      invariant answer != [] ==> 0 < here[0] <= |sets[0]| && answer[|answer| - 1] == sets[0][here[0] - 1]
      decreases if pos < 0 then 0 else |sets[0]| - pos
    {
      SortedAppend(answer, sets[0][pos]);
      CollectedNext(sets, start, here, cursors[..], answer, sets[0][pos]);
      answer := answer + [sets[0][pos]];
      here := cursors[..];
      pos := NextMatch(sets, cursors);
    }
    CollectedAll(sets, start, here, answer);
  }

  /** The common handles of many lists, in ascending order, each as often as it is in all of them. */
  method Intersection(lists: seq<seq<Handle>>) returns (answer: seq<Handle>)
    ensures Sorted(answer)
    ensures |lists| == 0 ==> answer == []
    ensures |lists| > 0 ==> forall h :: Count(answer, h) == CommonCount(lists, h)
  {
    hide CommonCount, Count;
    answer := [];
    if |lists| == 0 {
      return;
    }
    for i := 0 to |lists| {
      if lists[i] == [] {
        forall h ensures Count(answer, h) == CommonCount(lists, h) {
          CommonCountEmpty(lists, i, h);
          CountNone();
        }
        return;
      }
    }
    var v: seq<seq<Handle>> := [];
    for i := 0 to |lists|
      invariant |v| == i && AllSorted(v)
      invariant forall j :: 0 <= j < i ==> multiset(v[j]) == multiset(lists[j])
    {
      SortHandlesOk(lists[i]);
      v := v + [SortHandles(lists[i])];
    }
    answer := IntersectSorted(v);
    forall h ensures Count(answer, h) == CommonCount(lists, h) {
      CommonCountSorted(lists, v, h);
    }
  }
}
