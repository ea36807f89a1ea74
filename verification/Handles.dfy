/** Handles, and sorted lists of them. */
module Handles {
  type Handle = nat

  // The handle that names no atom (opencog/atomspace/Handle.cc).
  const UNDEFINED_HANDLE: Handle := 0xFFFF_FFFF_FFFF_FFFF

  ghost function Count(s: seq<Handle>, h: Handle): nat {
    multiset(s)[h]
  }

  lemma CountNone()
    ensures forall h :: Count([], h) == 0
  {
  }

  predicate NoRepeats(s: seq<Handle>) {
    forall i, j :: 0 <= i < j < |s| ==> s[i] != s[j]
  }

  predicate Sorted(s: seq<Handle>) {
    forall i, j :: 0 <= i < j < |s| ==> s[i] <= s[j]
  }

  /** Without repeats everything is there once. */
  lemma {:induction false} CountOnce(s: seq<Handle>, h: Handle)
    requires NoRepeats(s)
    ensures Count(s, h) == if h in s then 1 else 0
  {
    if s != [] {
      var n := |s| - 1;
      CountOnce(s[..n], h);
      assert s == s[..n] + [s[n]];
      assert s[n] !in s[..n];
    }
  }

  lemma SortedCons(h: Handle, s: seq<Handle>)
    requires Sorted(s) && (s != [] ==> h <= s[0])
    ensures Sorted([h] + s)
  {
  }

  function InsertSorted(s: seq<Handle>, h: Handle): seq<Handle> {
    if s == [] || h <= s[0] then [h] + s else [s[0]] + InsertSorted(s[1..], h)
  }

  lemma {:induction false} InsertSortedOk(s: seq<Handle>, h: Handle)
    requires Sorted(s)
    ensures var r := InsertSorted(s, h);
            Sorted(r) && multiset(r) == multiset(s) + multiset{h} && r != [] && (r[0] == h || (s != [] && r[0] == s[0]))
  {
    if s == [] || h <= s[0] {
      SortedCons(h, s);
    } else {
      assert s == [s[0]] + s[1..];
      InsertSortedOk(s[1..], h);
      SortedCons(s[0], InsertSorted(s[1..], h));
    }
  }

  function SortHandles(s: seq<Handle>): seq<Handle> {
    if s == [] then [] else InsertSorted(SortHandles(s[1..]), s[0])
  }

  lemma {:induction false} SortHandlesOk(s: seq<Handle>)
    ensures Sorted(SortHandles(s)) && multiset(SortHandles(s)) == multiset(s)
  {
    if s != [] {
      assert s == [s[0]] + s[1..];
      SortHandlesOk(s[1..]);
      InsertSortedOk(SortHandles(s[1..]), s[0]);
    }
  }

  lemma {:induction false} SortedUnique(s: seq<Handle>, t: seq<Handle>)
    requires Sorted(s) && Sorted(t) && multiset(s) == multiset(t)
    ensures s == t
  {
    if s == [] {
      assert |multiset(t)| == 0;
    } else {
      assert |multiset(t)| == |multiset(s)|;
      FirstSmallest(s, t);
      FirstSmallest(t, s);
      assert s == [s[0]] + s[1..] && t == [t[0]] + t[1..];
      assert multiset(s[1..]) == multiset(s) - multiset{s[0]};
      assert multiset(t[1..]) == multiset(t) - multiset{t[0]};
      SortedUnique(s[1..], t[1..]);
    }
  }

  lemma SortedAlready(s: seq<Handle>)
    requires Sorted(s)
    ensures SortHandles(s) == s
  {
    SortHandlesOk(s);
    SortedUnique(SortHandles(s), s);
  }

  lemma FirstSmallest(s: seq<Handle>, t: seq<Handle>)
    requires Sorted(s) && multiset(s) == multiset(t) && s != [] && t != []
    ensures s[0] <= t[0]
  {
    assert t[0] in multiset(t);
    assert t[0] in s;
  }
}
