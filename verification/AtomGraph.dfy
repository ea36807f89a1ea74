/** A set of atoms as a graph: links name the atoms in their outgoing lists, and every atom keeps the
    links that name it in its incoming list (opencog/atomspace/AtomTable.cc, Atom.cc). */
module AtomGraph {
  import opened Handles
  import opened Atoms

  type Graph = map<Handle, Key>

  function Outgoing(k: Key): seq<Handle> {
    if k.LinkKey? then k.outgoing else []
  }

  /** Links are made after the atoms they name. */
  ghost predicate LinksPointBack(g: Graph) {
    forall l, t :: l in g && t in Outgoing(g[l]) ==> t < l
  }

  /** Every outgoing handle of a live link is live. */
  ghost predicate Closed(g: Graph, live: set<Handle>) {
    && live <= g.Keys
    && forall l, t :: l in live && t in Outgoing(g[l]) ==> t in live
  }

  /** How often a live link names an atom. */
  ghost function Occurs(g: Graph, live: set<Handle>, l: Handle, a: Handle): nat {
    if l in live && l in g then Count(Outgoing(g[l]), a) else 0
  }

  /** Incoming lists are the inverse of the outgoing lists of the live links, with multiplicity. */
  ghost predicate IncomingOk(g: Graph, live: set<Handle>, inc: map<Handle, seq<Handle>>) {
    && inc.Keys == g.Keys
    && forall a, l :: a in g ==> Count(inc[a], l) == Occurs(g, live, l, a)
  }

  lemma IncomingKeys(g: Graph, live: set<Handle>, inc: map<Handle, seq<Handle>>)
    requires IncomingOk(g, live, inc)
    ensures forall h :: h in g <==> h in inc
  {
  }

  lemma InIncoming(g: Graph, live: set<Handle>, inc: map<Handle, seq<Handle>>, a: Handle)
    requires IncomingOk(g, live, inc) && live <= g.Keys && a in g
    ensures forall l :: l in inc[a] <==> l in live && a in Outgoing(g[l])
  {
    forall l ensures l in inc[a] <==> l in live && a in Outgoing(g[l]) {
      assert l in inc[a] <==> Count(inc[a], l) > 0;
      assert Count(inc[a], l) == Occurs(g, live, l, a);
      if l in live {
        assert a in Outgoing(g[l]) <==> Count(Outgoing(g[l]), a) > 0;
      }
    }
  }

  // ------------------------------------------------------- what depends on an atom

  /** `x` is `h`, or names it, or names a link that reaches it. */
  ghost predicate Reaches(g: Graph, x: Handle, h: Handle)
    decreases x
  {
    x == h || (x in g && exists t :: t in Outgoing(g[x]) && t < x && Reaches(g, t, h))
  }

  lemma {:induction false} ReachesTransitive(g: Graph, x: Handle, y: Handle, z: Handle)
    requires Reaches(g, x, y) && Reaches(g, y, z)
    ensures Reaches(g, x, z)
    decreases x
  {
    if x != y {
      var t :| t in Outgoing(g[x]) && t < x && Reaches(g, t, y);
      ReachesTransitive(g, t, y, z);
    }
  }

  lemma {:induction false} ReachesFromLater(g: Graph, x: Handle, h: Handle)
    requires Reaches(g, x, h)
    ensures h <= x
    decreases x
  {
    if x != h {
      var t :| t in Outgoing(g[x]) && t < x && Reaches(g, t, h);
      ReachesFromLater(g, t, h);
    }
  }

  /** A path to `h` ends in a link that names it. */
  lemma {:induction false} ReachesThrough(g: Graph, x: Handle, h: Handle) returns (i: Handle)
    requires LinksPointBack(g) && Reaches(g, x, h) && x != h
    ensures i in g && h in Outgoing(g[i]) && Reaches(g, x, i)
    decreases x
  {
    var t :| t in Outgoing(g[x]) && t < x && Reaches(g, t, h);
    if t == h {
      i := x;
    } else {
      i := ReachesThrough(g, t, h);
    }
  }

  lemma {:induction false} ClosedReaches(g: Graph, live: set<Handle>, x: Handle, h: Handle)
    requires Closed(g, live) && x in live && Reaches(g, x, h)
    ensures h in live
    decreases x
  {
    if x != h {
      var t :| t in Outgoing(g[x]) && t < x && Reaches(g, t, h);
      ClosedReaches(g, live, t, h);
    }
  }

  /** The live atoms that have to go when `h` goes. */
  ghost function Above(g: Graph, live: set<Handle>, h: Handle): set<Handle> {
    set x | x in live && Reaches(g, x, h)
  }

  /** Taking away only atoms that reach `h`, `h` among them, and leaving every remaining link with all
      the atoms it names, takes away exactly what reaches `h`. */
  lemma AboveGone(g: Graph, live: set<Handle>, rest: set<Handle>, h: Handle)
    requires Closed(g, rest) && rest <= live && h !in rest
    requires forall x :: x in live && x !in rest ==> Reaches(g, x, h)
    ensures live - rest == Above(g, live, h)
    ensures rest == live - Above(g, live, h)
  {
    forall x | x in rest ensures !Reaches(g, x, h) {
      if Reaches(g, x, h) {
        ClosedReaches(g, rest, x, h);
      }
    }
  }

  /** An atom that nothing names is reached only by itself. */
  lemma AboveAlone(g: Graph, live: set<Handle>, h: Handle)
    requires LinksPointBack(g) && Closed(g, live) && h in live
    requires forall l :: l in live ==> h !in Outgoing(g[l])
    ensures Above(g, live, h) == {h}
  {
    forall x | x in live && Reaches(g, x, h) ensures x == h {
      if x != h {
        var i := ReachesThrough(g, x, h);
        ClosedReaches(g, live, x, i);
      }
    }
  }

  // ------------------------------------------------------- the order of removal

  /** Every target comes before the links that name it. */
  ghost predicate TargetsFirst(g: Graph, list: seq<Handle>) {
    forall i, j :: 0 <= i < |list| && 0 <= j < |list| && list[j] in g && list[i] in Outgoing(g[list[j]]) ==> i < j
  }

  /** A closed set of atoms taken before atoms that were already out of it. */
  lemma TargetsFirstJoin(g: Graph, live: set<Handle>, a: seq<Handle>, b: seq<Handle>)
    requires TargetsFirst(g, a) && TargetsFirst(g, b) && NoRepeats(a) && NoRepeats(b)
    requires Closed(g, live) && (forall x :: x in a ==> x in live) && (forall x :: x in b ==> x !in live)
    ensures TargetsFirst(g, a + b) && NoRepeats(a + b)
  {
    var list := a + b;
    forall i, j | 0 <= i < |list| && 0 <= j < |list| && list[j] in g && list[i] in Outgoing(g[list[j]]) ensures i < j {
      assert i >= |a| ==> list[i] in b;
      if j < |a| {
        assert a[j] in live && list[i] in live;
      } else if i >= |a| {
        assert b[i - |a|] in Outgoing(g[b[j - |a|]]);
      }
    }
    forall i, j | 0 <= i < j < |list| ensures list[i] != list[j] {
      if i < |a| <= j {
        assert a[i] in a && b[j - |a|] in b;
      }
    }
  }

  lemma TargetsFirstOne(g: Graph, h: Handle)
    requires LinksPointBack(g)
    ensures TargetsFirst(g, [h]) && NoRepeats([h])
  {
  }

  // ------------------------------------------------------- one link entering or leaving

  /** Link `h` has left the incoming lists of its first `i` targets. */
  ghost predicate PartlyDetached(g: Graph, live: set<Handle>, inc: map<Handle, seq<Handle>>, h: Handle, i: nat)
    requires h in g && i <= |Outgoing(g[h])|
  {
    && inc.Keys == g.Keys
    && forall a, l :: a in g ==>
         Count(inc[a], l) == if l == h then Count(Outgoing(g[h])[i..], a) else Occurs(g, live, l, a)
  }

  lemma DetachBegins(g: Graph, live: set<Handle>, inc: map<Handle, seq<Handle>>, h: Handle)
    requires IncomingOk(g, live, inc) && h in live && h in g
    ensures PartlyDetached(g, live, inc, h, 0)
  {
    assert Outgoing(g[h])[0..] == Outgoing(g[h]);
  }

  lemma DetachEnds(g: Graph, live: set<Handle>, inc: map<Handle, seq<Handle>>, h: Handle)
    requires h in g && PartlyDetached(g, live, inc, h, |Outgoing(g[h])|)
    ensures IncomingOk(g, live - {h}, inc)
  {
    var outs := Outgoing(g[h]);
    assert outs[|outs|..] == [];
  }

  lemma CountCons(s: seq<Handle>, i: nat)
    requires i < |s|
    ensures forall a :: Count(s[i..], a) == Count(s[i + 1..], a) + if a == s[i] then 1 else 0
    ensures forall a :: Count(s[..i + 1], a) == Count(s[..i], a) + if a == s[i] then 1 else 0
  {
    assert s[i..] == [s[i]] + s[i + 1..];
    assert s[..i + 1] == s[..i] + [s[i]];
  }

  /** The next target does hold the link, so that it can be unlinked. */
  lemma DetachNext(g: Graph, live: set<Handle>, inc: map<Handle, seq<Handle>>, h: Handle, i: nat)
    requires h in g && i < |Outgoing(g[h])|
    requires PartlyDetached(g, live, inc, h, i)
    requires Outgoing(g[h])[i] in g
    ensures var t := Outgoing(g[h])[i];
            h in inc[t] && PartlyDetached(g, live, inc[t := RemoveFirst(inc[t], h)], h, i + 1)
  {
    var t := Outgoing(g[h])[i];
    CountCons(Outgoing(g[h]), i);
    assert Count(inc[t], h) == Count(Outgoing(g[h])[i..], t) > 0;
    assert h in inc[t];
    RemoveFirstCount(inc[t], h);
    hide Count, Occurs;
  }

  /** Link `h` has entered the incoming lists of its first `i` targets. */
  ghost predicate PartlyAttached(g: Graph, live: set<Handle>, inc: map<Handle, seq<Handle>>, h: Handle, i: nat)
    requires h in g && i <= |Outgoing(g[h])|
  {
    && inc.Keys == g.Keys
    && forall a, l :: a in g ==>
         Count(inc[a], l) == if l == h then Count(Outgoing(g[h])[..i], a) else Occurs(g, live, l, a)
  }

  lemma AttachNext(g: Graph, live: set<Handle>, inc: map<Handle, seq<Handle>>, h: Handle, i: nat)
    requires h in g && i < |Outgoing(g[h])|
    requires PartlyAttached(g, live, inc, h, i)
    requires Outgoing(g[h])[i] in g
    ensures var t := Outgoing(g[h])[i];
            PartlyAttached(g, live, inc[t := [h] + inc[t]], h, i + 1)
  {
    var t := Outgoing(g[h])[i];
    CountCons(Outgoing(g[h]), i);
    assert forall l :: Count([h] + inc[t], l) == Count(inc[t], l) + if l == h then 1 else 0;
    hide Count, Occurs;
  }

  lemma AttachEnds(g: Graph, live: set<Handle>, inc: map<Handle, seq<Handle>>, h: Handle)
    requires h in g && PartlyAttached(g, live, inc, h, |Outgoing(g[h])|)
    ensures IncomingOk(g, live + {h}, inc)
  {
    var outs := Outgoing(g[h]);
    assert outs[..|outs|] == outs;
  }

  /** A new atom, named by nothing. */
  lemma AttachBegins(g: Graph, live: set<Handle>, inc: map<Handle, seq<Handle>>, h: Handle, k: Key)
    requires IncomingOk(g, live, inc) && Closed(g, live) && h !in g
    requires forall t :: t in Outgoing(k) ==> t in live
    ensures PartlyAttached(g[h := k], live, inc[h := []], h, 0)
  {
    var g', inc' := g[h := k], inc[h := []];
    forall a, l | a in g'
      ensures Count(inc'[a], l) == if l == h then Count(Outgoing(g'[h])[..0], a) else Occurs(g', live, l, a)
    {
      if a == h {
        if l in live {
          assert h !in Outgoing(g[l]);
        }
      } else {
        assert Count(inc[a], l) == Occurs(g, live, l, a);
      }
    }
  }

  // ------------------------------------------------------- old atoms

  /** The atom and everything that reaches it is old. */
  ghost predicate DeepOld(g: Graph, live: set<Handle>, avs: map<Handle, AttentionValue>, threshold: Short, h: Handle) {
    h in live && forall x :: x in live && Reaches(g, x, h) ==> x in avs && avs[x].IsOld(threshold)
  }

  /** One step at a time: an atom is to go if it is old and all that names it is to go. */
  lemma DeepOldStep(g: Graph, live: set<Handle>, avs: map<Handle, AttentionValue>, threshold: Short, h: Handle)
    requires LinksPointBack(g) && Closed(g, live) && h in live && h in avs
    ensures DeepOld(g, live, avs, threshold, h) <==>
      avs[h].IsOld(threshold)
      && forall l :: l in live && h in Outgoing(g[l]) ==> DeepOld(g, live, avs, threshold, l)
  {
    if DeepOld(g, live, avs, threshold, h) {
      assert Reaches(g, h, h);
      forall l | l in live && h in Outgoing(g[l]) ensures DeepOld(g, live, avs, threshold, l) {
        forall x | x in live && Reaches(g, x, l) ensures x in avs && avs[x].IsOld(threshold) {
          assert Reaches(g, h, h) && h < l && Reaches(g, l, h);
          ReachesTransitive(g, x, l, h);
        }
      }
    } else if avs[h].IsOld(threshold) {
      var x :| x in live && Reaches(g, x, h) && !(x in avs && avs[x].IsOld(threshold));
      var l := ReachesThrough(g, x, h);
      ClosedReaches(g, live, x, l);
      assert !DeepOld(g, live, avs, threshold, l);
    }
  }
}
