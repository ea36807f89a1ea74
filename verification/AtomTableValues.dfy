/** What the table of atoms holds, as values (opencog/atomspace/AtomTable.cc). */
module AtomTableValues {
  import opened Handles
  import opened Atoms
  import opened AtomGraph
  import opened TLBs
  import opened AtomIndexes
  import opened ImportanceIndexes

  // ------------------------------------------------------- the set of atoms

  ghost predicate Holds(atomSet: map<Key, Atom>, m: map<Handle, Atom>, live: set<Handle>, k: Key)
    requires k in atomSet
  {
    exists h :: h in live && h in m && m[h] == atomSet[k] && m[h].key == k
  }

  /** The set holds the live atoms, and finds each under its content. */
  ghost predicate AtomSetOk(atomSet: map<Key, Atom>, m: map<Handle, Atom>, live: set<Handle>) {
    && (forall h :: h in live ==> h in m && m[h].key in atomSet && atomSet[m[h].key] == m[h])
    && (forall k :: k in atomSet ==> Holds(atomSet, m, live, k))
  }

  /** Different live atoms differ in content. */
  ghost predicate UniqueKeys(g: Graph, live: set<Handle>) {
    forall x, y :: x in live && y in live && x in g && y in g && g[x] == g[y] ==> x == y
  }

  lemma AtomSetAdd(atomSet: map<Key, Atom>, m: map<Handle, Atom>, live: set<Handle>, h: Handle, atom: Atom)
    requires AtomSetOk(atomSet, m, live) && h !in m && atom.key !in atomSet
    ensures AtomSetOk(atomSet[atom.key := atom], m[h := atom], live + {h})
  {
    var s, m' := atomSet[atom.key := atom], m[h := atom];
    forall k | k in s ensures Holds(s, m', live + {h}, k) {
      if k == atom.key {
        assert m'[h] == atom;
      } else {
        assert Holds(atomSet, m, live, k);
        var x :| x in live && x in m && m[x] == atomSet[k] && m[x].key == k;
        assert m'[x] == m[x];
      }
    }
  }

  lemma AtomSetErase(atomSet: map<Key, Atom>, m: map<Handle, Atom>, live: set<Handle>, h: Handle)
    requires AtomSetOk(atomSet, m, live) && h in live && UniqueKeys(GraphOf(m), live)
    ensures h in m && AtomSetOk(atomSet - {m[h].key}, m, live - {h})
  {
    var s := atomSet - {m[h].key};
    forall k | k in s ensures Holds(s, m, live - {h}, k) {
      assert Holds(atomSet, m, live, k);
      var x :| x in live && x in m && m[x] == atomSet[k] && m[x].key == k;
      assert x != h;
    }
    forall x | x in live - {h} ensures x in m && m[x].key in s && s[m[x].key] == m[x] {
      assert GraphOf(m)[x] != GraphOf(m)[h];
    }
  }

  lemma AtomSetForget(atomSet: map<Key, Atom>, m: map<Handle, Atom>, live: set<Handle>, h: Handle)
    requires AtomSetOk(atomSet, m, live) && h !in live
    ensures AtomSetOk(atomSet, m - {h}, live)
  {
    forall k | k in atomSet ensures Holds(atomSet, m - {h}, live, k) {
      assert Holds(atomSet, m, live, k);
      var x :| x in live && x in m && m[x] == atomSet[k] && m[x].key == k;
      assert (m - {h})[x] == m[x];
    }
  }

  // ------------------------------------------------------- a graph that changes away from the live atoms

  ghost predicate AgreeOn(g: Graph, g': Graph, live: set<Handle>) {
    live <= g.Keys && live <= g'.Keys && forall h :: h in live ==> g'[h] == g[h]
  }

  lemma GraphGrows(m: map<Handle, Atom>, live: set<Handle>, h: Handle, atom: Atom)
    requires h !in m && live <= m.Keys
    ensures GraphOf(m[h := atom]) == GraphOf(m)[h := atom.key]
    ensures AgreeOn(GraphOf(m), GraphOf(m[h := atom]), live)
  {
  }

  lemma GraphShrinks(m: map<Handle, Atom>, live: set<Handle>, h: Handle)
    requires h !in live && live <= m.Keys
    ensures GraphOf(m - {h}) == GraphOf(m) - {h}
    ensures AgreeOn(GraphOf(m), GraphOf(m - {h}), live)
  {
  }

  lemma ClosedTransfer(g: Graph, g': Graph, live: set<Handle>)
    requires AgreeOn(g, g', live) && Closed(g, live)
    ensures Closed(g', live)
  {
  }

  lemma LinkedShrinks(g: Graph, live: set<Handle>, inc: map<Handle, seq<Handle>>, h: Handle)
    requires LinksPointBack(g) && Closed(g, live) && IncomingOk(g, live, inc) && h !in live
    ensures LinksPointBack(g - {h}) && Closed(g - {h}, live) && IncomingOk(g - {h}, live, inc - {h})
  {
    forall a, l | a in g - {h} ensures Count((inc - {h})[a], l) == Occurs(g - {h}, live, l, a) {
      assert Count(inc[a], l) == Occurs(g, live, l, a);
    }
  }

  /** An atom that nothing names can go. */
  lemma ClosedWithout(g: Graph, live: set<Handle>, inc: map<Handle, seq<Handle>>, h: Handle)
    requires Closed(g, live) && IncomingOk(g, live, inc) && h in live && inc[h] == []
    ensures Closed(g, live - {h})
  {
    InIncoming(g, live, inc, h);
  }

  lemma UniqueTransfer(g: Graph, g': Graph, live: set<Handle>, live': set<Handle>)
    requires AgreeOn(g, g', live) && UniqueKeys(g, live) && live' <= live
    ensures UniqueKeys(g', live')
  {
  }

  lemma TargetBinsTransfer(g: Graph, g': Graph, live: set<Handle>, h: Handle)
    requires AgreeOn(g, g', live) && Closed(g, live) && h in live
    ensures TypesOf(g', Outgoing(g'[h])) == TypesOf(g, Outgoing(g[h]))
  {
    var outs := Outgoing(g[h]);
    forall i | 0 <= i < |outs| ensures outs[i] in g && outs[i] in g' && g[outs[i]] == g'[outs[i]] {
      assert outs[i] in Outgoing(g[h]);
    }
  }

  ghost predicate KnownTypes(m: map<Handle, Atom>, types: nat) {
    forall h :: h in m ==> m[h].key.atomType < types
  }

  // ------------------------------------------------------- unordered links

  /** Links of unordered types have their outgoing handles sorted. */
  ghost predicate NormalLinks(m: map<Handle, Atom>, unorderedTypes: set<nat>) {
    forall h :: h in m ==> Normal(m[h].key, unorderedTypes)
  }

  lemma NormalForgotten(m: map<Handle, Atom>, unorderedTypes: set<nat>, h: Handle)
    requires NormalLinks(m, unorderedTypes)
    ensures NormalLinks(m - {h}, unorderedTypes)
  {
  }

  lemma NormalAdded(m: map<Handle, Atom>, unorderedTypes: set<nat>, h: Handle, atom: Atom)
    requires NormalLinks(m, unorderedTypes) && Normal(atom.key, unorderedTypes)
    ensures NormalLinks(m[h := atom], unorderedTypes)
  {
  }

  /** Among live links of an unordered type there are no two over the same atoms. */
  lemma UnorderedUnique(m: map<Handle, Atom>, live: set<Handle>, unorderedTypes: set<nat>, x: Handle, y: Handle)
    requires NormalLinks(m, unorderedTypes) && UniqueKeys(GraphOf(m), live)
    requires x in live && y in live && x in m && y in m && m[x].key.LinkKey? && m[y].key.LinkKey?
    requires m[x].key.atomType == m[y].key.atomType && m[x].key.atomType in unorderedTypes
    requires multiset(m[x].key.outgoing) == multiset(m[y].key.outgoing)
    ensures x == y
  {
    assert Normal(m[x].key, unorderedTypes) && Normal(m[y].key, unorderedTypes);
    SortedUnique(m[x].key.outgoing, m[y].key.outgoing);
    assert GraphOf(m)[x] == GraphOf(m)[y];
  }

  /** There is a live link of the type that names these atoms. */
  ghost predicate HasLink(m: map<Handle, Atom>, live: set<Handle>, t: nat, handles: seq<Handle>,
                          unorderedTypes: set<nat>) {
    exists h :: h in live && h in m && IsLinkOf(m[h].key, t, handles, unorderedTypes)
  }

  /** Looking a link up by its handles as they are given finds it exactly if there is one and, for an
      unordered type, the handles given are sorted. */
  lemma LookupNeedsSorted(m: map<Handle, Atom>, live: set<Handle>, unorderedTypes: set<nat>, t: nat, asked: seq<Handle>,
                          found: Handle)
    requires NormalLinks(m, unorderedTypes) && Found(m, live, LinkKey(t, asked), found) && UNDEFINED_HANDLE !in live
    ensures found in live <==>
      HasLink(m, live, t, asked, unorderedTypes) && (t in unorderedTypes ==> Sorted(asked))
    ensures found in live ==> found in m && IsLinkOf(m[found].key, t, asked, unorderedTypes)
    ensures found !in live ==> found == UNDEFINED_HANDLE
  {
    var k := LinkKey(t, asked);
    if found in live {
      assert Normal(m[found].key, unorderedTypes);
    }
    if HasLink(m, live, t, asked, unorderedTypes) && (t in unorderedTypes ==> Sorted(asked)) {
      var h :| h in live && h in m && IsLinkOf(m[h].key, t, asked, unorderedTypes);
      assert Normal(m[h].key, unorderedTypes);
      MadeOf(m[h].key, t, asked, unorderedTypes);
      NewLinkNormal(t, asked, unorderedTypes);
      assert m[h].key == k;
    }
  }

  // ------------------------------------------------------- recursive extraction, on values

  /** Only atoms waiting for removal are in the map of handles but not in the table. */
  ghost predicate Accounted(keys: set<Handle>, live: set<Handle>, marked: set<Handle>) {
    keys <= live + marked
  }

  lemma UnmarkedLive(keys: set<Handle>, live: set<Handle>, marked: set<Handle>, h: Handle)
    requires Accounted(keys, live, marked) && h in keys && h !in marked
    ensures h in live
  {
  }

  /** What is known while the links above `h` are being extracted: `live0` was live at the start. */
  ghost predicate Extracting(g: Graph, live0: set<Handle>, live: set<Handle>, marked0: set<Handle>, marked: set<Handle>,
                             result: seq<Handle>, h: Handle) {
    && h in live && live <= live0 && (forall x :: x in live0 && x !in live ==> Reaches(g, x, h))
    && ElementsOf(result) == live0 - live && NoRepeats(result) && TargetsFirst(g, result)
    && marked == marked0 + {h} + (live0 - live)
  }

  /** `h` has been taken out, with everything that reaches it; the list has links after their targets. */
  ghost predicate Extracted(g: Graph, live0: set<Handle>, live: set<Handle>, marked0: set<Handle>, marked: set<Handle>,
                            result: seq<Handle>, h: Handle) {
    && live == live0 - Above(g, live0, h) && marked == marked0 + Above(g, live0, h)
    && ElementsOf(result) == Above(g, live0, h) && NoRepeats(result) && TargetsFirst(g, result)
    && result != [] && result[0] == h
  }

  /** The marks that live atoms carry belong to the atoms on whose behalf `h` is extracted. */
  ghost predicate StackBelow(live: set<Handle>, marked: set<Handle>, h: Handle) {
    forall s :: s in live && s in marked ==> s < h
  }

  lemma MarkedNotLive(live: set<Handle>, marked: set<Handle>, h: Handle)
    requires StackBelow(live, marked, h) && h in marked
    ensures h !in live
  {
  }

  lemma StillLive(g: Graph, live0: set<Handle>, live: set<Handle>, marked0: set<Handle>, marked: set<Handle>,
                  result: seq<Handle>, h: Handle)
    requires Extracting(g, live0, live, marked0, marked, result, h)
    ensures h in live && live <= live0 && h in marked
  {
  }

  /** The links still to visit; the others have gone. */
  ghost predicate Visiting(incoming: seq<Handle>, links: set<Handle>, live: set<Handle>) {
    (forall i :: i in links ==> i in incoming) && (forall i :: i in incoming && i !in links ==> i !in live)
  }

  lemma VisitingNext(incoming: seq<Handle>, links: set<Handle>, live: set<Handle>, i: Handle, live': set<Handle>)
    requires Visiting(incoming, links, live) && live' <= live && i !in live'
    ensures Visiting(incoming, links - {i}, live')
  {
  }

  lemma ExtractingBegins(g: Graph, live: set<Handle>, marked: set<Handle>, h: Handle)
    requires h in live
    ensures Extracting(g, live, live, marked, marked + {h}, [], h)
  {
    assert live - live == {};
  }

  /** An incoming link that is not marked is live, and above everything that is live and marked. */
  lemma ExtractingNext(g: Graph, live0: set<Handle>, live: set<Handle>, marked0: set<Handle>, marked: set<Handle>,
                       result: seq<Handle>, h: Handle, keys: set<Handle>, i: Handle)
    requires Extracting(g, live0, live, marked0, marked, result, h) && StackBelow(live0, marked0, h)
    requires h < i && Accounted(keys, live0, marked0) && i in keys
    ensures i !in marked ==> i in live && StackBelow(live, marked, i) && Accounted(keys, live, marked)
    ensures i in marked ==> i !in live
  {
  }

  lemma ExtractingOne(g: Graph, live0: set<Handle>, live: set<Handle>, live': set<Handle>,
                      marked0: set<Handle>, marked: set<Handle>, marked': set<Handle>,
                      result: seq<Handle>, more: seq<Handle>, h: Handle, i: Handle)
    requires Extracting(g, live0, live, marked0, marked, result, h) && LinksPointBack(g)
    requires i in live && i in g && h in Outgoing(g[i]) && Closed(g, live)
    requires Extracted(g, live, live', marked, marked', more, i)
    ensures Extracting(g, live0, live', marked0, marked', more + result, h) && live' <= live && i !in live'
  {
    hide NoRepeats, TargetsFirst, LinksPointBack, Closed;
    BeforeItsLinks(g, h, i);
    assert i in Above(g, live, i);
    forall x | x in live && x !in live' ensures Reaches(g, x, h) && x != h {
      ReachesTransitive(g, x, i, h);
      ReachesFromLater(g, x, i);
    }
    forall x | x in more ensures x in live {
      assert x in ElementsOf(more);
    }
    forall x | x in result ensures x !in live {
      assert x in ElementsOf(result);
    }
    TargetsFirstJoin(g, live, more, result);
    ElementsJoin(more, result);
    hide Reaches, ElementsOf;
    assert live0 - live' == live0 - live + Above(g, live, i);
  }

  lemma BeforeItsLinks(g: Graph, h: Handle, i: Handle)
    requires LinksPointBack(g) && i in g && h in Outgoing(g[i])
    ensures h < i && Reaches(g, i, h)
  {
    assert Reaches(g, h, h);
  }

  lemma IncomingNext(g: Graph, live0: set<Handle>, inc0: map<Handle, seq<Handle>>, h: Handle, links: set<Handle>,
                     live: set<Handle>, i: Handle)
    requires LinksPointBack(g) && Closed(g, live0) && IncomingOk(g, live0, inc0) && h in live0
    requires Visiting(inc0[h], links, live) && i in links
    ensures h < i && i in live0 && i in g && h in Outgoing(g[i])
  {
    InIncoming(g, live0, inc0, h);
  }

  /** With all that named it gone, nothing names the atom. */
  lemma NowAlone(g: Graph, live0: set<Handle>, inc0: map<Handle, seq<Handle>>, live: set<Handle>,
                 inc: map<Handle, seq<Handle>>,
                 h: Handle)
    requires Closed(g, live0) && IncomingOk(g, live0, inc0) && live <= live0 && IncomingOk(g, live, inc) && h in live
    requires Visiting(inc0[h], {}, live)
    ensures inc[h] == []
  {
    assert inc[h] != [] ==> inc[h][0] in inc[h];
    InIncoming(g, live0, inc0, h);
    InIncoming(g, live, inc, h);
  }

  lemma ExtractingEnds(g: Graph, live0: set<Handle>, live: set<Handle>, marked0: set<Handle>, marked: set<Handle>,
                       result: seq<Handle>, h: Handle)
    requires Extracting(g, live0, live, marked0, marked, result, h)
    requires LinksPointBack(g) && Closed(g, live) && Closed(g, live - {h})
    ensures Extracted(g, live0, live - {h}, marked0, marked, [h] + result, h)
  {
    assert Reaches(g, h, h);
    AboveGone(g, live0, live - {h}, h);
    hide Reaches, NoRepeats, TargetsFirst, LinksPointBack, Closed;
    assert ElementsOf([h]) == {h};
    ElementsJoin([h], result);
    forall x | x in result ensures x !in live {
      assert x in ElementsOf(result);
    }
    TargetsFirstOne(g, h);
    TargetsFirstJoin(g, live, [h], result);
  }

  // ------------------------------------------------------- everything but the indexes

  /** The live atoms are found in the set of atoms and differ in content; links and incoming lists
      agree. */
  ghost predicate ValuesOk(m: map<Handle, Atom>, inc: map<Handle, seq<Handle>>, live: set<Handle>, size: int,
                           atomSet: map<Key, Atom>) {
    && LinksPointBack(GraphOf(m)) && Closed(GraphOf(m), live) && IncomingOk(GraphOf(m), live, inc)
    && UniqueKeys(GraphOf(m), live) && AtomSetOk(atomSet, m, live) && size == |live|
  }

  lemma ValuesParts(m: map<Handle, Atom>, inc: map<Handle, seq<Handle>>, live: set<Handle>, size: int,
                    atomSet: map<Key, Atom>)
    requires ValuesOk(m, inc, live, size, atomSet)
    ensures LinksPointBack(GraphOf(m)) && Closed(GraphOf(m), live) && IncomingOk(GraphOf(m), live, inc)
  {
  }

  lemma ValuesTakenOut(m: map<Handle, Atom>, inc: map<Handle, seq<Handle>>, inc': map<Handle, seq<Handle>>,
                       live: set<Handle>, size: int, atomSet: map<Key, Atom>, h: Handle)
    requires ValuesOk(m, inc, live, size, atomSet)
    requires h in live && h in inc && inc[h] == [] && IncomingOk(GraphOf(m), live - {h}, inc')
    ensures h in m && size > 0 && ValuesOk(m, inc', live - {h}, size - 1, atomSet - {m[h].key})
  {
    hide LinksPointBack, Closed, IncomingOk, UniqueKeys, AtomSetOk, GraphOf;
    ClosedWithout(GraphOf(m), live, inc, h);
    AtomSetErase(atomSet, m, live, h);
    FewerLive(GraphOf(m), live, h);
    assert |live - {h}| == |live| - 1;
  }

  lemma FewerLive(g: Graph, live: set<Handle>, h: Handle)
    requires UniqueKeys(g, live)
    ensures UniqueKeys(g, live - {h})
  {
  }

  lemma ValuesForgotten(m: map<Handle, Atom>, inc: map<Handle, seq<Handle>>, live: set<Handle>, size: int,
                        atomSet: map<Key, Atom>, h: Handle)
    requires ValuesOk(m, inc, live, size, atomSet) && h !in live
    ensures ValuesOk(m - {h}, inc - {h}, live, size, atomSet)
    ensures live <= m.Keys && AgreeOn(GraphOf(m), GraphOf(m - {h}), live)
    ensures h in inc ==> inc[h] == []
  {
    hide LinksPointBack, IncomingOk, UniqueKeys, AtomSetOk;
    GraphShrinks(m, live, h);
    LinkedShrinks(GraphOf(m), live, inc, h);
    AtomSetForget(atomSet, m, live, h);
    UniqueTransfer(GraphOf(m), GraphOf(m - {h}), live, live);
    if h in inc {
      NamedByNone(GraphOf(m), live, inc, h);
    }
  }

  /** Atoms that are not live are named by nothing live. */
  lemma NamedByNone(g: Graph, live: set<Handle>, inc: map<Handle, seq<Handle>>, h: Handle)
    requires Closed(g, live) && IncomingOk(g, live, inc) && h !in live && h in inc
    ensures inc[h] == []
  {
    assert inc[h] != [] ==> inc[h][0] in inc[h];
    InIncoming(g, live, inc, h);
  }

  /** When the handles from `k` on are gone, those that the one before names are still there. */
  lemma TargetsStillThere(g: Graph, list: seq<Handle>, k: nat, keys: set<Handle>)
    requires TargetsFirst(g, list) && NoRepeats(list) && k < |list| && list[k] in g
    requires forall t :: t in Outgoing(g[list[k]]) ==> t in keys
    ensures forall t :: t in Outgoing(g[list[k]]) ==> t in keys - ElementsOf(list[k + 1..])
    ensures list[k] !in ElementsOf(list[k + 1..])
    ensures ElementsOf(list[k..]) == ElementsOf(list[k + 1..]) + {list[k]}
  {
    var later := list[k + 1..];
    forall j | 0 <= j < |later| ensures later[j] !in Outgoing(g[list[k]]) && later[j] != list[k] {
      assert later[j] == list[k + 1 + j];
    }
    assert list[k..] == [list[k]] + list[k + 1..];
    ElementsJoin([list[k]], list[k + 1..]);
  }

  /** What removal needs of the list that extraction gave. */
  ghost predicate Removal(m: map<Handle, Atom>, live: set<Handle>, list: seq<Handle>) {
    && NoRepeats(list) && TargetsFirst(GraphOf(m), list)
    && (forall x :: x in list ==> x in m && x !in live)
    && (forall x, t :: x in list && x in m && t in Outgoing(m[x].key) ==> t in m)
  }

  lemma RemovalAfterExtraction(m: map<Handle, Atom>, live0: set<Handle>, live: set<Handle>, marked0: set<Handle>,
                               marked: set<Handle>, list: seq<Handle>, h: Handle)
    requires Closed(GraphOf(m), live0) && Extracted(GraphOf(m), live0, live, marked0, marked, list, h)
    ensures Removal(m, live, list)
  {
    var g := GraphOf(m);
    forall x | x in list ensures x in live0 && x in m && x !in live {
      assert x in ElementsOf(list);
    }
    forall x, t | x in list && x in m && t in Outgoing(m[x].key) ensures t in m {
      assert x in ElementsOf(list);
      assert x in live0 && t in Outgoing(g[x]);
      assert t in live0 && live0 <= g.Keys;
      assert t in g;
    }
  }

  lemma RemovalBegins(list: seq<Handle>, m: map<Handle, Atom>, avs: map<Handle, AttentionValue>, marked: set<Handle>,
                      decayed: set<Handle>)
    ensures var none := ElementsOf(list[|list|..]);
            m - none == m && avs - none == avs && marked - none == marked && decayed - none == decayed
  {
    assert ElementsOf(list[|list|..]) == {};
  }

  lemma RemovalNext(m: map<Handle, Atom>, live: set<Handle>, list: seq<Handle>, k: nat,
                    avs: map<Handle, AttentionValue>,
                    marked: set<Handle>, decayed: set<Handle>)
    requires Removal(m, live, list) && k < |list|
    ensures var gone, h := ElementsOf(list[k + 1..]), list[k];
            && h in m && h in m - gone && h !in live && (forall t :: t in Outgoing(m[h].key) ==> t in m - gone)
            && m - gone - {h} == m - ElementsOf(list[k..]) && avs - gone - {h} == avs - ElementsOf(list[k..])
            && marked - gone - {h} == marked - ElementsOf(list[k..])
            && decayed - gone - {h} == decayed - ElementsOf(list[k..])
  {
    var h := list[k];
    assert h in list;
    TargetsStillThere(GraphOf(m), list, k, m.Keys);
    hide ElementsOf, NoRepeats, TargetsFirst;
  }

  lemma TargetsPresent(m: map<Handle, Atom>, live: set<Handle>, h: Handle)
    requires Closed(GraphOf(m), live) && h in live
    ensures h in m && forall t :: t in Outgoing(m[h].key) ==> t in m
  {
    forall t | t in Outgoing(m[h].key) ensures t in m {
      assert t in Outgoing(GraphOf(m)[h]);
      assert t in live;
    }
  }

  lemma ExtractedParts(g: Graph, live0: set<Handle>, live: set<Handle>, marked0: set<Handle>, marked: set<Handle>,
                       list: seq<Handle>, h: Handle)
    requires Extracted(g, live0, live, marked0, marked, list, h)
    ensures list != [] && live == live0 - Above(g, live0, h)
  {
  }

  /** No atom waits for removal. */
  ghost predicate Quiet(live: set<Handle>, keys: set<Handle>, marked: set<Handle>, decayed: set<Handle>) {
    live == keys && marked == {} && decayed == {}
  }

  /** Exactly the atoms of `gone` are no longer there. */
  ghost predicate TookAway(m: map<Handle, Atom>, m': map<Handle, Atom>, avs: map<Handle, AttentionValue>,
                           avs': map<Handle, AttentionValue>, live: set<Handle>, live': set<Handle>,
                           gone: set<Handle>) {
    live' == live - gone && m' == m - gone && avs' == avs - gone
  }

  /** What a decay round keeps, in the fields. */
  lemma ForgottenGo(g: Graph, live: set<Handle>, avs: map<Handle, AttentionValue>, minSTI: Short)
    requires Closed(g, live)
    ensures var avs' := DecayOf(avs, live);
            var gone := AllDeepOld(g, live, avs', minSTI);
      && LostOneUnit(avs, live, avs') && LetGo(g, live, avs', minSTI, gone)
      && live - (live - gone) == gone
      && forall x, h :: x in live && x in avs && avs[x].lti >= 1 && Reaches(g, x, h) ==> h in live - gone
  {
    hide Reaches, Closed;
    var avs' := DecayOf(avs, live);
    var gone := AllDeepOld(g, live, avs', minSTI);
    OnlyDecayLoses(avs, live, avs');
    OnlyDeepOldGo(g, live, avs', minSTI, gone);
    DeepOldLive(g, live, avs', minSTI);
    hide LostOneUnit, LetGo, AllDeepOld, DecayOf;
    forall x, h | x in live && x in avs && avs[x].lti >= 1 && Reaches(g, x, h) ensures h in live - gone {
      LongTermStays(g, live, avs, avs', minSTI, gone, x, h);
    }
  }

  lemma LiveAfter(m: map<Handle, Atom>, m': map<Handle, Atom>, avs: map<Handle, AttentionValue>,
                  avs': map<Handle, AttentionValue>, live: set<Handle>, live': set<Handle>, gone: set<Handle>)
    requires TookAway(m, m', avs, avs', live, live', gone)
    ensures live' == live - gone
  {
  }

  lemma NothingGone(m: map<Handle, Atom>, avs: map<Handle, AttentionValue>, live: set<Handle>)
    ensures TookAway(m, m, avs, avs, live, live, {})
  {
  }

  lemma AfterRemoval(m: map<Handle, Atom>, avs: map<Handle, AttentionValue>, live0: set<Handle>, live: set<Handle>,
                     marked: set<Handle>, list: seq<Handle>, h: Handle)
    requires Extracted(GraphOf(m), live0, live, {}, marked, list, h) && live0 == m.Keys
    ensures TookAway(m, m - ElementsOf(list), avs, avs - ElementsOf(list), live0, live, Above(GraphOf(m), live0, h))
    ensures Quiet(live, (m - ElementsOf(list)).Keys, marked - ElementsOf(list), {} - ElementsOf(list))
  {
    hide Above, ElementsOf, NoRepeats, TargetsFirst;
  }

  /** The atoms of the list are what reaches `h`; they are out of the table and can be deleted, and then
      no atom waits for removal. */
  ghost predicate Deletable(m: map<Handle, Atom>, live0: set<Handle>, live: set<Handle>, marked: set<Handle>,
                            decayed: set<Handle>, list: seq<Handle>, h: Handle) {
    && Removal(m, live, list) && NoRepeats(list) && ElementsOf(list) == Above(GraphOf(m), live0, h)
    && (forall i :: 0 <= i < |list| ==> list[i] in m)
    && live == live0 - ElementsOf(list)
    && Quiet(live, (m - ElementsOf(list)).Keys, marked - ElementsOf(list), decayed - ElementsOf(list))
  }

  lemma DeletableAfterExtraction(m: map<Handle, Atom>, live0: set<Handle>, live: set<Handle>, marked: set<Handle>,
                                 list: seq<Handle>, h: Handle)
    requires Closed(GraphOf(m), live0) && Extracted(GraphOf(m), live0, live, {}, marked, list, h) && live0 == m.Keys
    ensures Deletable(m, live0, live, marked, {}, list, h)
  {
    RemovalAfterExtraction(m, live0, live, {}, marked, list, h);
    AfterRemoval(m, map[], live0, live, marked, list, h);
    hide Removal, Quiet, Closed, TargetsFirst, NoRepeats, Above;
    forall i | 0 <= i < |list| ensures list[i] in m {
      assert list[i] in ElementsOf(list);
      AboveLive(GraphOf(m), live0, h);
    }
  }

  lemma AboveLive(g: Graph, live: set<Handle>, h: Handle)
    ensures Above(g, live, h) <= live
  {
  }

  lemma DeletableParts(m: map<Handle, Atom>, avs: map<Handle, AttentionValue>, live0: set<Handle>, live: set<Handle>,
                       marked: set<Handle>, decayed: set<Handle>, list: seq<Handle>, h: Handle)
    requires Deletable(m, live0, live, marked, decayed, list, h)
    ensures Removal(m, live, list)
    ensures TookAway(m, m - ElementsOf(list), avs, avs - ElementsOf(list), live0, live, Above(GraphOf(m), live0, h))
    ensures Quiet(live, (m - ElementsOf(list)).Keys, marked - ElementsOf(list), decayed - ElementsOf(list))
  {
  }

  lemma AboveItself(m: map<Handle, Atom>, live0: set<Handle>, live: set<Handle>, marked: set<Handle>,
                    decayed: set<Handle>, list: seq<Handle>, h: Handle)
    requires Deletable(m, live0, live, marked, decayed, list, h)
    ensures h !in live
  {
    hide Removal, Quiet;
    assert Reaches(GraphOf(m), h, h);
  }

  // ------------------------------------------------------- clearing the atoms that decayed

  /** While decayed atoms are cleared: `some` are still in the set of atoms. Their targets may have
      left it already. */
  ghost predicate Clearing(m: map<Handle, Atom>, inc: map<Handle, seq<Handle>>, some: set<Handle>, size: int,
                           atomSet: map<Key, Atom>) {
    IncomingOk(GraphOf(m), some, inc) && UniqueKeys(GraphOf(m), some) && AtomSetOk(atomSet, m, some) && size == |some|
  }

  ghost function NotYet(live: set<Handle>, list: seq<Handle>, k: nat): set<Handle>
    requires k <= |list|
  {
    live - ElementsOf(list[..k])
  }

  lemma ClearingBegins(m: map<Handle, Atom>, inc: map<Handle, seq<Handle>>, live: set<Handle>, size: int,
                       atomSet: map<Key, Atom>, list: seq<Handle>)
    requires ValuesOk(m, inc, live, size, atomSet)
    ensures Clearing(m, inc, NotYet(live, list, 0), size, atomSet)
  {
    assert live - ElementsOf(list[..0]) == live;
  }

  lemma ClearingStep(m: map<Handle, Atom>, inc: map<Handle, seq<Handle>>, inc': map<Handle, seq<Handle>>,
                     some: set<Handle>, size: int, atomSet: map<Key, Atom>, h: Handle)
    requires Clearing(m, inc, some, size, atomSet) && h in some && IncomingOk(GraphOf(m), some - {h}, inc')
    ensures h in m && Clearing(m, inc', some - {h}, size - 1, atomSet - {m[h].key})
  {
    hide IncomingOk, UniqueKeys, AtomSetOk, GraphOf;
    AtomSetErase(atomSet, m, some, h);
    FewerLive(GraphOf(m), some, h);
    assert |some - {h}| == |some| - 1;
  }

  lemma ClearingParts(m: map<Handle, Atom>, inc: map<Handle, seq<Handle>>, some: set<Handle>, size: int,
                      atomSet: map<Key, Atom>, h: Handle)
    requires Clearing(m, inc, some, size, atomSet) && h in some
    ensures IncomingOk(GraphOf(m), some, inc) && size > 0
  {
  }

  lemma ClearingNext(m: map<Handle, Atom>, live: set<Handle>, list: seq<Handle>, k: nat)
    requires NoRepeats(list) && k < |list| && ElementsOf(list) <= live && Closed(GraphOf(m), live)
    ensures var h := list[k];
            h in NotYet(live, list, k) && NotYet(live, list, k + 1) == NotYet(live, list, k) - {h}
            && h in m && forall t :: t in Outgoing(m[h].key) ==> t in m
  {
    assert list[k] in ElementsOf(list);
    TargetsPresent(m, live, list[k]);
    forall j | 0 <= j < k ensures list[..k][j] != list[k] {
    }
    assert list[..k + 1] == list[..k] + [list[k]];
    ElementsJoin(list[..k], [list[k]]);
  }

  lemma ClearingEnds(m: map<Handle, Atom>, inc: map<Handle, seq<Handle>>, live: set<Handle>, size: int,
                     atomSet: map<Key, Atom>, list: seq<Handle>)
    requires Clearing(m, inc, NotYet(live, list, |list|), size, atomSet) && LinksPointBack(GraphOf(m))
    requires Closed(GraphOf(m), live) && Closed(GraphOf(m), live - ElementsOf(list)) && ElementsOf(list) <= live
    requires NoRepeats(list) && TargetsFirst(GraphOf(m), list)
    ensures ValuesOk(m, inc, live - ElementsOf(list), size, atomSet)
    ensures Removal(m, live - ElementsOf(list), list)
  {
    assert list[..|list|] == list;
    forall x | x in list ensures x in live {
      assert x in ElementsOf(list);
    }
    forall x, t | x in list && x in m && t in Outgoing(m[x].key) ensures t in m {
      TargetsPresent(m, live, x);
    }
  }

  lemma AfterClearing(m: map<Handle, Atom>, avs: map<Handle, AttentionValue>, live: set<Handle>, gone: set<Handle>)
    requires live == m.Keys
    ensures TookAway(m, m - gone, avs, avs - gone, live, live - gone, gone)
    ensures Quiet(live - gone, (m - gone).Keys, {} - gone, gone - gone)
  {
  }

  // ------------------------------------------------------- a new atom

  ghost predicate HasKey(m: map<Handle, Atom>, live: set<Handle>, k: Key) {
    exists h :: h in live && h in m && m[h].key == k
  }

  lemma ValuesAdded(m: map<Handle, Atom>, inc: map<Handle, seq<Handle>>, inc': map<Handle, seq<Handle>>,
                    live: set<Handle>,
                    size: int, atomSet: map<Key, Atom>, h: Handle, atom: Atom)
    requires ValuesOk(m, inc, live, size, atomSet) && h !in m && (forall x :: x in m ==> x < h)
    requires !HasKey(m, live, atom.key) && (forall t :: t in Outgoing(atom.key) ==> t in live)
    requires IncomingOk(GraphOf(m[h := atom]), live + {h}, inc')
    ensures ValuesOk(m[h := atom], inc', live + {h}, size + 1, atomSet[atom.key := atom])
  {
    hide LinksPointBack, Closed, IncomingOk, UniqueKeys, AtomSetOk, GraphOf, HasKey;
    NewKey(atomSet, m, live, atom.key);
    AtomSetAdd(atomSet, m, live, h, atom);
    GraphAdded(m, live, h, atom);
    assert |live + {h}| == |live| + 1;
  }

  lemma GraphAdded(m: map<Handle, Atom>, live: set<Handle>, h: Handle, atom: Atom)
    requires LinksPointBack(GraphOf(m)) && Closed(GraphOf(m), live) && UniqueKeys(GraphOf(m), live)
    requires h !in m && (forall x :: x in m ==> x < h) && (forall t :: t in Outgoing(atom.key) ==> t in live)
    requires !HasKey(m, live, atom.key)
    ensures h !in live
    ensures LinksPointBack(GraphOf(m[h := atom])) && Closed(GraphOf(m[h := atom]), live + {h})
    ensures UniqueKeys(GraphOf(m[h := atom]), live + {h})
  {
    hide Outgoing;
    var g, g' := GraphOf(m), GraphOf(m[h := atom]);
    GraphGrows(m, live, h, atom);
    forall l, t | l in g' && t in Outgoing(g'[l]) ensures t < l {
      assert l != h ==> l in g && g'[l] == g[l];
      assert l == h ==> t in live && t in m;
    }
    forall l, t | l in live + {h} && t in Outgoing(g'[l]) ensures t in live + {h} {
      assert l != h ==> l in g && g'[l] == g[l];
    }
    forall x | x in live ensures g'[x] == m[x].key && g'[x] != atom.key {
    }
    assert g'[h] == atom.key;
  }

  /** Between the map of handles and the table: the new atom is known, but not yet live. */
  lemma GraphReady(m: map<Handle, Atom>, inc: map<Handle, seq<Handle>>, live: set<Handle>, h: Handle, atom: Atom)
    requires Closed(GraphOf(m), live) && IncomingOk(GraphOf(m), live, inc) && h !in m && live == m.Keys
    requires !HasKey(m, live, atom.key) && forall t :: t in Outgoing(atom.key) ==> t in live
    ensures h in GraphOf(m[h := atom]) && Closed(GraphOf(m[h := atom]), live)
    ensures PartlyAttached(GraphOf(m[h := atom]), live, inc[h := []], h, 0)
    ensures !HasKey(m[h := atom], live, atom.key) && Quiet(live + {h}, m[h := atom].Keys, {}, {})
    ensures forall t :: t in Outgoing(atom.key) ==> t in m[h := atom]
  {
    GraphGrows(m, live, h, atom);
    ClosedTransfer(GraphOf(m), GraphOf(m[h := atom]), live);
    hide PartlyAttached, IncomingOk, Closed;
    AttachBegins(GraphOf(m), live, inc, h, atom.key);
  }

  lemma NewKey(atomSet: map<Key, Atom>, m: map<Handle, Atom>, live: set<Handle>, k: Key)
    requires AtomSetOk(atomSet, m, live)
    ensures k in atomSet <==> HasKey(m, live, k)
  {
    if k in atomSet {
      assert Holds(atomSet, m, live, k);
    }
  }

  lemma LivePresent(m: map<Handle, Atom>, live: set<Handle>)
    requires Closed(GraphOf(m), live)
    ensures live <= m.Keys
  {
  }

  // ------------------------------------------------------- lookup

  /** `h` is the one live atom with this content, or undefined if there is none. */
  ghost predicate Found(m: map<Handle, Atom>, live: set<Handle>, k: Key, h: Handle) {
    && (HasKey(m, live, k) ==> h in live && h in m && m[h].key == k)
    && (!HasKey(m, live, k) ==> h == UNDEFINED_HANDLE)
    && (forall x :: x in live && x in m && m[x].key == k ==> x == h)
  }

  lemma FoundNode(m: map<Handle, Atom>, live: set<Handle>, t: nat, name: string, h: Handle)
    requires live <= GraphOf(m).Keys && UNDEFINED_HANDLE !in live
    requires forall x :: x in live ==> (GraphOf(m)[x] == NodeKey(t, name) <==> h == x)
    requires h != UNDEFINED_HANDLE ==> h in live
    ensures Found(m, live, NodeKey(t, name), h)
  {
  }

  lemma FoundLink(m: map<Handle, Atom>, live: set<Handle>, t: nat, outgoing: seq<Handle>, h: Handle)
    requires live <= GraphOf(m).Keys && UNDEFINED_HANDLE !in live
    requires forall x :: x in live ==> (GraphOf(m)[x] == LinkKey(t, outgoing) <==> h == x)
    requires h != UNDEFINED_HANDLE ==> h in live
    ensures Found(m, live, LinkKey(t, outgoing), h)
  {
  }

  lemma OtherKeys(m: map<Handle, Atom>, live: set<Handle>, h: Handle)
    requires h in m && !HasKey(m, live, m[h].key) && Closed(GraphOf(m), live)
    ensures live <= m.Keys && forall x :: x in live ==> GraphOf(m)[x] != GraphOf(m)[h]
  {
    forall x | x in live ensures GraphOf(m)[x] != GraphOf(m)[h] {
      assert x in m && m[x].key != m[h].key;
    }
  }

  lemma TargetsTyped(m: map<Handle, Atom>, live: set<Handle>, h: Handle, types: nat)
    requires h in m && KnownTypes(m, types) && Closed(GraphOf(m), live)
    requires forall t :: t in Outgoing(m[h].key) ==> t in live
    ensures h in GraphOf(m) && forall t :: t in Outgoing(GraphOf(m)[h]) ==> t in m && m[t].key.atomType < types
  {
  }

  lemma FoundMeans(m: map<Handle, Atom>, live: set<Handle>, k: Key, h: Handle)
    requires Found(m, live, k, h) && UNDEFINED_HANDLE !in live
    ensures h in live <==> HasKey(m, live, k)
  {
  }

  /** The cases of adding an atom. */
  datatype AddCase = AlreadyIn | NoSuchType | Duplicate | Dangling | New

  ghost function Outcome(m: map<Handle, Atom>, live: set<Handle>, types: nat, atom: Atom): AddCase
    reads atom`inTable
  {
    if atom.inTable then AlreadyIn
    else if atom.key.atomType >= types then NoSuchType
    else if HasKey(m, live, atom.key) then Duplicate
    else if exists t :: t in Outgoing(atom.key) && t !in live then Dangling
    else New
  }

  lemma OutcomeMeans(m: map<Handle, Atom>, live: set<Handle>, types: nat, atom: Atom)
    ensures var c := Outcome(m, live, types, atom);
            && (c.AlreadyIn? <==> atom.inTable)
            && (c.NoSuchType? <==> !atom.inTable && atom.key.atomType >= types)
            && (c.Duplicate? <==> !atom.inTable && atom.key.atomType < types && HasKey(m, live, atom.key))
            && (c.New? || c.Dangling? <==> !atom.inTable && atom.key.atomType < types && !HasKey(m, live, atom.key))
            && (c.New? ==> forall t :: t in Outgoing(atom.key) ==> t in live)
            && (c.Dangling? ==> !forall t :: t in Outgoing(atom.key) ==> t in live)
  {
  }

  lemma ValuesSize(m: map<Handle, Atom>, inc: map<Handle, seq<Handle>>, live: set<Handle>, size: int,
                   atomSet: map<Key, Atom>, atomSet': map<Key, Atom>)
    requires ValuesOk(m, inc, live, size, atomSet)
    ensures !ValuesOk(m, inc, live, size + 1, atomSet')
  {
  }
}
