/** The table of atoms (opencog/atomspace/AtomTable.cc). */
module AtomTables {
  import opened Wrappers
  import opened Handles
  import opened Atoms
  import opened AtomGraph
  import opened TLBs
  import opened AtomIndexes
  import opened ImportanceIndexes
  import opened AtomTableValues

  datatype AddError = UnknownType | InvalidOutgoing

  class AtomTable {
    const tlb: TLB
    const nodeIndex: NodeIndex
    const linkIndex: LinkIndex
    const typeIndex: TypeIndex
    const targetTypeIndex: TargetTypeIndex
    const importanceIndex: ImportanceIndex

    // How many atom types there are, and which of them are types of unordered links.
    const types: nat
    const unorderedTypes: set<nat>

    var size: nat
    var atomSet: map<Key, Atom>

    // The handles of the atoms in the table.
    ghost var live: set<Handle>

    constructor (types: nat, unorderedTypes: set<nat>)
      ensures fresh(tlb) && fresh(nodeIndex) && fresh(linkIndex) && fresh(typeIndex) && fresh(targetTypeIndex)
      ensures fresh(importanceIndex)
      ensures Valid() && Settled() && live == {} && tlb.handleMap == map[] && tlb.brkUuid == 1 && tlb.atoms == {}
      ensures this.types == types && this.unorderedTypes == unorderedTypes
    {
      tlb := new TLB();
      nodeIndex := new NodeIndex(types);
      linkIndex := new LinkIndex(types);
      typeIndex := new TypeIndex(types);
      targetTypeIndex := new TargetTypeIndex(types);
      importanceIndex := new ImportanceIndex();
      this.types, this.unorderedTypes := types, unorderedTypes;
      size, atomSet, live := 0, map[], {};
      new;
      hide *;
      NothingIndexed();
      NothingThere();
    }

    lemma NothingIndexed()
      requires |nodeIndex.idx| == |linkIndex.idx| == types && |typeIndex.idx| == |targetTypeIndex.idx| == types + 1
      requires |importanceIndex.idx| == IMPORTANCE_INDEX_SIZE + 1
      requires forall t :: 0 <= t < types ==> nodeIndex.idx[t] == map[] && linkIndex.idx[t] == map[]
      requires forall b :: 0 <= b <= types ==> typeIndex.idx[b] == {} && targetTypeIndex.idx[b] == {}
      requires forall b :: 0 <= b <= IMPORTANCE_INDEX_SIZE ==> importanceIndex.idx[b] == {}
      ensures Catalogued(map[], map[], {})
    {
    }

    lemma NothingThere()
      requires tlb.Mirrors() && Catalogued(map[], map[], {})
      requires tlb.handleMap == map[] && tlb.inc == map[] && tlb.avs == map[] && tlb.marked == {} && tlb.decayed == {}
      requires size == 0 && atomSet == map[] && live == {}
      ensures Valid() && Settled()
    {
      hide Catalogued;
    }

    /** The indexes hold the atoms of `some`. */
    ghost predicate Catalogued(m: map<Handle, Atom>, avs: map<Handle, AttentionValue>, some: set<Handle>)
      reads nodeIndex`idx, linkIndex`idx, typeIndex`idx, targetTypeIndex`idx, importanceIndex`idx
    {
      && |nodeIndex.idx| == |linkIndex.idx| == types && |typeIndex.idx| == |targetTypeIndex.idx| == types + 1
      && KnownTypes(m, types)
      && nodeIndex.Ok(GraphOf(m), some) && linkIndex.Ok(GraphOf(m), some)
      && typeIndex.Ok(GraphOf(m), some) && targetTypeIndex.Ok(GraphOf(m), some) && importanceIndex.Ok(avs, some)
    }

    ghost predicate Valid()
      reads this, tlb, tlb.atoms, nodeIndex`idx, linkIndex`idx, typeIndex`idx, targetTypeIndex`idx, importanceIndex`idx
    {
      && tlb.Mirrors() && Catalogued(tlb.handleMap, tlb.avs, live)
      && ValuesOk(tlb.handleMap, tlb.inc, live, size, atomSet) && NormalLinks(tlb.handleMap, unorderedTypes)
    }

    lemma ValidParts()
      requires Valid()
      ensures tlb.Mirrors() && Catalogued(tlb.handleMap, tlb.avs, live)
      ensures ValuesOk(tlb.handleMap, tlb.inc, live, size, atomSet)
      ensures LinksPointBack(GraphOf(tlb.handleMap)) && Closed(GraphOf(tlb.handleMap), live)
      ensures IncomingOk(GraphOf(tlb.handleMap), live, tlb.inc) && NormalLinks(tlb.handleMap, unorderedTypes)
    {
    }

    lemma ValidAgain()
      ensures
        && tlb.Mirrors() && Catalogued(tlb.handleMap, tlb.avs, live)
        && ValuesOk(tlb.handleMap, tlb.inc, live, size, atomSet) && NormalLinks(tlb.handleMap, unorderedTypes)
        ==> Valid()
    {
    }

    lemma Known(h: Handle)
      requires Valid()
      ensures h in live ==> h in tlb.handleMap
      ensures h in tlb.marked ==> h in tlb.handleMap
      ensures h in tlb.handleMap <==> h in tlb.inc
      ensures h in tlb.handleMap <==> h in tlb.avs
      ensures h in tlb.handleMap <==> h in GraphOf(tlb.handleMap)
      ensures h in tlb.handleMap ==> h < tlb.brkUuid && h != UNDEFINED_HANDLE
    {
    }

    /** Between operations: no atom waits for removal. */
    ghost predicate Settled()
      reads this`live, tlb`handleMap, tlb`marked, tlb`decayed
    {
      Quiet(live, tlb.handleMap.Keys, tlb.marked, tlb.decayed)
    }

    /** The indexes do not look at atoms that are not live. */
    lemma CatalogueTransfer(m: map<Handle, Atom>, m': map<Handle, Atom>, avs: map<Handle, AttentionValue>,
                            avs': map<Handle, AttentionValue>)
      requires Catalogued(m, avs, live) && KnownTypes(m', types)
      requires AgreeOn(GraphOf(m), GraphOf(m'), live) && Closed(GraphOf(m), live)
      requires live <= avs.Keys && live <= avs'.Keys && forall h :: h in live ==> avs'[h] == avs[h]
      ensures Catalogued(m', avs', live)
    {
      hide EntriesOk, BinsOk, TypesOf, Closed, KnownTypes, GraphOf;
      var g, g' := GraphOf(m), GraphOf(m');
      EntriesSame(nodeIndex.idx, live, NodeContent(g), live, NodeContent(g'));
      EntriesSame(linkIndex.idx, live, LinkContent(g), live, LinkContent(g'));
      BinsSame(typeIndex.idx, live, TypeBins(g), TypeBins(g'));
      forall h | h in live ensures TargetBins(g')[h] == TargetBins(g)[h] {
        TargetBinsTransfer(g, g', live, h);
      }
      BinsSame(targetTypeIndex.idx, live, TargetBins(g), TargetBins(g'));
      BinsSame(importanceIndex.idx, live, ImportanceBins(avs), ImportanceBins(avs'));
    }

    // ------------------------------------------------------- taking out one atom

    lemma CatalogueParts(m: map<Handle, Atom>, avs: map<Handle, AttentionValue>, some: set<Handle>, h: Handle)
      requires Catalogued(m, avs, some) && Closed(GraphOf(m), live)
      ensures |nodeIndex.idx| == |linkIndex.idx| == types && |typeIndex.idx| == |targetTypeIndex.idx| == types + 1
      ensures nodeIndex.Ok(GraphOf(m), some) && linkIndex.Ok(GraphOf(m), some)
      ensures typeIndex.Ok(GraphOf(m), some) && targetTypeIndex.Ok(GraphOf(m), some)
      ensures importanceIndex.Ok(avs, some) && KnownTypes(m, types)
      ensures h in m ==> m[h].key.atomType < types
      ensures h in live ==> h in m
      ensures h in live ==> forall t :: t in Outgoing(GraphOf(m)[h]) ==> t in m && m[t].key.atomType < types
    {
      hide EntriesOk, BinsOk, TypesOf;
      if h in live {
        forall t | t in Outgoing(GraphOf(m)[h]) ensures t in m && m[t].key.atomType < types {
          assert t in live;
        }
      }
    }

    lemma CatalogueAgain(m: map<Handle, Atom>, avs: map<Handle, AttentionValue>, some: set<Handle>)
      ensures
        && |nodeIndex.idx| == |linkIndex.idx| == types && |typeIndex.idx| == |targetTypeIndex.idx| == types + 1
        && nodeIndex.Ok(GraphOf(m), some) && linkIndex.Ok(GraphOf(m), some)
        && typeIndex.Ok(GraphOf(m), some) && targetTypeIndex.Ok(GraphOf(m), some)
        && importanceIndex.Ok(avs, some) && KnownTypes(m, types)
        ==> Catalogued(m, avs, some)
    {
      hide EntriesOk, BinsOk, TypesOf;
    }

    method RemoveFromIndexes(h: Handle)
      requires tlb.Mirrors() && Catalogued(tlb.handleMap, tlb.avs, live) && Closed(GraphOf(tlb.handleMap), live)
      requires h in live
      modifies nodeIndex`idx, linkIndex`idx, typeIndex`idx, targetTypeIndex`idx, importanceIndex`idx
      ensures Catalogued(tlb.handleMap, tlb.avs, live - {h})
    {
      hide *;
      CatalogueParts(tlb.handleMap, tlb.avs, live, h);
      nodeIndex.RemoveHandle(tlb, h, live);
      linkIndex.RemoveHandle(tlb, h, live);
      typeIndex.RemoveHandle(tlb, h, live);
      targetTypeIndex.RemoveHandle(tlb, h, live);
      importanceIndex.RemoveHandle(tlb, h, live);
      CatalogueAgain(tlb.handleMap, tlb.avs, live - {h});
    }

    /** Takes a link out of the incoming lists of its targets; none of them lacks it. */
    method LeaveIncoming(h: Handle, ghost some: set<Handle>) returns (ok: bool)
      requires tlb.Mirrors() && IncomingOk(GraphOf(tlb.handleMap), some, tlb.inc) && h in some && h in tlb.handleMap
      requires forall t :: t in Outgoing(tlb.handleMap[h].key) ==> t in tlb.handleMap
      modifies tlb`inc, tlb.atoms`incoming
      ensures tlb.Mirrors() && IncomingOk(GraphOf(tlb.handleMap), some - {h}, tlb.inc)
      ensures ok
    {
      hide Numbered, IncomingMirrored, AttentionMirrored, MarkedMirrored, DecayedMirrored, IncomingOk, PartlyDetached;
      ghost var g := GraphOf(tlb.handleMap);
      var key := tlb.handleMap[h].key;
      ok := true;
      DetachBegins(g, some, tlb.inc, h);
      if key.LinkKey? {
        var outgoing := key.outgoing;
        for i := 0 to |outgoing|
          invariant ok && tlb.Mirrors() && PartlyDetached(g, some, tlb.inc, h, i)
        {
          assert outgoing[i] in Outgoing(key);
          DetachNext(g, some, tlb.inc, h, i);
          var r := tlb.RemoveIncoming(outgoing[i], h);
          ok := ok && r.Success?;
        }
      }
      DetachEnds(g, some, tlb.inc, h);
    }

    /** Takes an atom that nothing names out of the table and its indexes. */
    method TakeOut(h: Handle)
      requires Valid() && h in live && tlb.inc[h] == []
      modifies this`size, this`atomSet, this`live, nodeIndex`idx, linkIndex`idx, typeIndex`idx, targetTypeIndex`idx,
        importanceIndex`idx
      modifies tlb`inc, tlb.atoms`incoming
      ensures Valid() && live == old(live) - {h}
    {
      hide *;
      ValidParts();
      Known(h);
      ghost var live0, inc0 := live, tlb.inc;
      RemoveFromIndexes(h);
      TargetsPresent(tlb.handleMap, live, h);
      var ok := LeaveIncoming(h, live);
      ValuesTakenOut(tlb.handleMap, inc0, tlb.inc, live, size, atomSet, h);
      size, atomSet, live := size - 1, atomSet - {tlb.handleMap[h].key}, live - {h};
      ValidAgain();
    }

    /** Whether extracting an atom takes it out. */
    ghost predicate Removable(h: Handle, recursive: bool)
      reads this`live, tlb`inc
    {
      h in live && (recursive || (h in tlb.inc && tlb.inc[h] == []))
    }

    /** Takes an atom out of the table, with everything that reaches it if `recursive`. The atoms stay
        in the map of handles until they are removed. Without `recursive`, an atom that something names
        stays. */
    method Extract(h: Handle, recursive: bool) returns (result: seq<Handle>)
      requires Valid() && Accounted(tlb.handleMap.Keys, live, tlb.marked) && StackBelow(live, tlb.marked, h)
      modifies this`size, this`atomSet, this`live, nodeIndex`idx, linkIndex`idx, typeIndex`idx, targetTypeIndex`idx,
        importanceIndex`idx
      modifies tlb`inc, tlb`marked, tlb.atoms`incoming, tlb.atoms`markedForRemoval
      ensures Valid()
      ensures old(Removable(h, recursive)) ==>
        Extracted(GraphOf(tlb.handleMap), old(live), live, old(tlb.marked), tlb.marked, result, h)
      ensures !old(Removable(h, recursive)) ==>
        live == old(live) && tlb.marked == old(tlb.marked) && tlb.inc == old(tlb.inc) && result == []
      decreases tlb.brkUuid - h, 1
    {
      hide *;
      ghost var g, live0, marked0 := GraphOf(tlb.handleMap), live, tlb.marked;
      ValidParts();
      Known(h);
      RemovableMeans(h, recursive);
      result := [];
      if h !in tlb.handleMap {
        return;
      }
      var atom := ImportanceIndex.GetAtom(tlb, h);
      if atom.markedForRemoval {
        MarkedNotLive(live, tlb.marked, h);
        return;
      }
      UnmarkedLive(tlb.handleMap.Keys, live, tlb.marked, h);
      tlb.MarkForRemoval(h);
      ValidAgain();
      ExtractingBegins(g, live, marked0, h);
      if recursive {
        result := ExtractIncoming(h, marked0);
      }
      ValidParts();
      Known(h);
      StillLive(g, live0, live, marked0, tlb.marked, result, h);
      atom := ImportanceIndex.GetAtom(tlb, h);
      if atom.incoming != [] {
        tlb.UnsetRemovalFlag(h);
        ValidAgain();
        return;
      }
      ghost var live2, marked2 := live, tlb.marked;
      TakeOut(h);
      ValidParts();
      ExtractingEnds(g, live0, live2, marked0, marked2, result, h);
      result := [h] + result;
    }

    /** The links that name `h` go first. The incoming list shrinks meanwhile, so that the loop works
        on a copy; the order does not matter. */
    method ExtractIncoming(h: Handle, ghost marked0: set<Handle>) returns (result: seq<Handle>)
      requires Valid() && Accounted(tlb.handleMap.Keys, live, marked0) && StackBelow(live, marked0, h) && h in live
      requires Extracting(GraphOf(tlb.handleMap), live, live, marked0, tlb.marked, [], h)
      modifies this`size, this`atomSet, this`live, nodeIndex`idx, linkIndex`idx, typeIndex`idx, targetTypeIndex`idx,
        importanceIndex`idx
      modifies tlb`inc, tlb`marked, tlb.atoms`incoming, tlb.atoms`markedForRemoval
      ensures Valid()
      ensures Extracting(GraphOf(tlb.handleMap), old(live), live, marked0, tlb.marked, result, h)
      ensures h in tlb.inc && tlb.inc[h] == []
      decreases tlb.brkUuid - h, 0
    {
      hide *;
      ghost var g, live0, inc0 := GraphOf(tlb.handleMap), live, tlb.inc;
      ValidParts();
      Known(h);
      ghost var incoming := inc0[h];
      result := [];
      var links := CopyIncoming(h);
      while links != {}
        invariant Valid() && Extracting(g, live0, live, marked0, tlb.marked, result, h)
        invariant GraphOf(tlb.handleMap) == g && Visiting(incoming, links, live)
        decreases links
      {
        var i :| i in links;
        ValidParts();
        Known(i);
        IncomingNext(g, live0, inc0, h, links, live, i);
        ExtractingNext(g, live0, live, marked0, tlb.marked, result, h, tlb.handleMap.Keys, i);
        var a := ImportanceIndex.GetAtom(tlb, i);
        ghost var live1, marked1 := live, tlb.marked;
        if !a.markedForRemoval {
          RemovableMeans(i, true);
          var more := Extract(i, true);
          ValidParts();
          assert GraphOf(tlb.handleMap) == g;
          ExtractingOne(g, live0, live1, live, marked0, marked1, tlb.marked, result, more, h, i);
          result := more + result;
        }
        VisitingNext(incoming, links, live1, i, live);
        links := links - {i};
      }
      ValidParts();
      Known(h);
      StillLive(g, live0, live, marked0, tlb.marked, result, h);
      NowAlone(g, live0, inc0, live, tlb.inc, h);
    }

    method CopyIncoming(h: Handle) returns (links: set<Handle>)
      requires tlb.Mirrors() && h in tlb.handleMap
      ensures Visiting(tlb.inc[h], links, live)
    {
      var atom := ImportanceIndex.GetAtom(tlb, h);
      links := set i | i in atom.incoming;
    }

    lemma RemovableMeans(h: Handle, recursive: bool)
      requires Valid()
      ensures Removable(h, recursive) <==> h in live && (recursive || (h in tlb.inc && tlb.inc[h] == []))
    {
    }

    // ------------------------------------------------------- removal

    /** Deletes one atom that is no longer in the table. */
    method ForgetAtom(h: Handle)
      requires Valid() && h in tlb.handleMap && h !in live
      requires forall t :: t in Outgoing(tlb.handleMap[h].key) ==> t in tlb.handleMap
      modifies tlb`handleMap, tlb`inc, tlb`avs, tlb`marked, tlb`decayed, tlb.atoms`handle
      ensures Valid() && tlb.handleMap == old(tlb.handleMap) - {h} && tlb.avs == old(tlb.avs) - {h}
      ensures tlb.marked == old(tlb.marked) - {h} && tlb.decayed == old(tlb.decayed) - {h}
    {
      hide *;
      ValidParts();
      Known(h);
      CatalogueForgets(h);
      NormalForgotten(tlb.handleMap, unorderedTypes, h);
      ValuesForgotten(tlb.handleMap, tlb.inc, live, size, atomSet, h);
      KeyIn(tlb.handleMap, h);
      tlb.RemoveAtom(h);
      ValidAgain();
    }

    lemma CatalogueForgets(h: Handle)
      requires Valid() && h !in live
      ensures Catalogued(tlb.handleMap - {h}, tlb.avs - {h}, live)
    {
      ValidParts();
      hide Catalogued, ValuesOk, Numbered, IncomingMirrored, MarkedMirrored, DecayedMirrored;
      ValuesForgotten(tlb.handleMap, tlb.inc, live, size, atomSet, h);
      CatalogueParts(tlb.handleMap, tlb.avs, live, h);
      CatalogueTransfer(tlb.handleMap, tlb.handleMap - {h}, tlb.avs, tlb.avs - {h});
    }

    lemma KeyIn(m: map<Handle, Atom>, h: Handle)
      requires h in m
      ensures h in GraphOf(m) && GraphOf(m)[h] == m[h].key
    {
    }

    /** Deletes extracted atoms, links before the atoms they name: from the end of the list. */
    method RemoveExtractedHandles(list: seq<Handle>)
      requires Valid() && Removal(tlb.handleMap, live, list)
      modifies tlb`handleMap, tlb`inc, tlb`avs, tlb`marked, tlb`decayed, tlb.atoms`handle
      ensures Valid() && tlb.handleMap == old(tlb.handleMap) - ElementsOf(list)
      ensures tlb.avs == old(tlb.avs) - ElementsOf(list)
      ensures tlb.marked == old(tlb.marked) - ElementsOf(list) && tlb.decayed == old(tlb.decayed) - ElementsOf(list)
    {
      hide *;
      ghost var m, avs, marked, decayed := tlb.handleMap, tlb.avs, tlb.marked, tlb.decayed;
      var k := |list|;
      RemovalBegins(list, m, avs, marked, decayed);
      while k > 0
        invariant 0 <= k <= |list| && Valid()
        invariant tlb.handleMap == m - ElementsOf(list[k..]) && tlb.avs == avs - ElementsOf(list[k..])
        invariant tlb.marked == marked - ElementsOf(list[k..]) && tlb.decayed == decayed - ElementsOf(list[k..])
      {
        k := k - 1;
        RemovalNext(m, live, list, k, avs, marked, decayed);
        ForgetAtom(list[k]);
      }
      assert list[k..] == list;
    }

    /** Extraction when no atom waits for removal. */
    method ExtractForRemoval(h: Handle, recursive: bool) returns (list: seq<Handle>)
      requires Valid() && Settled()
      modifies this`size, this`atomSet, this`live, nodeIndex`idx, linkIndex`idx, typeIndex`idx, targetTypeIndex`idx,
        importanceIndex`idx
      modifies tlb`inc, tlb`marked, tlb.atoms`incoming, tlb.atoms`markedForRemoval
      ensures Valid() && (list != [] <==> old(Removable(h, recursive)))
      ensures list == [] ==> Settled() && live == old(live)
      ensures list != [] ==> Deletable(tlb.handleMap, old(live), live, tlb.marked, tlb.decayed, list, h)
    {
      hide *;
      ghost var m, live0, removable := tlb.handleMap, live, Removable(h, recursive);
      ValidParts();
      SettledParts(h);
      list := Extract(h, recursive);
      if removable {
        ExtractedParts(GraphOf(m), live0, live, {}, tlb.marked, list, h);
        DeletableAfterExtraction(m, live0, live, tlb.marked, list, h);
      } else {
        SettledAgain();
      }
    }

    /** Extracts and deletes. */
    method Remove(h: Handle, recursive: bool) returns (ok: bool)
      requires Valid() && Settled()
      modifies this`size, this`atomSet, this`live, nodeIndex`idx, linkIndex`idx, typeIndex`idx, targetTypeIndex`idx,
        importanceIndex`idx
      modifies tlb`handleMap, tlb`inc, tlb`avs, tlb`marked, tlb`decayed
      modifies tlb.atoms`handle, tlb.atoms`incoming, tlb.atoms`markedForRemoval
      ensures Valid() && Settled()
      ensures ok <==> old(Removable(h, recursive))
      ensures ok <==> h in old(live) && h !in live
      ensures TookAway(old(tlb.handleMap), tlb.handleMap, old(tlb.avs), tlb.avs, old(live), live,
        if ok then Above(GraphOf(old(tlb.handleMap)), old(live), h) else {})
    {
      hide *;
      ghost var m, avs, live0 := tlb.handleMap, tlb.avs, live;
      RemovableMeans(h, recursive);
      var list := ExtractForRemoval(h, recursive);
      if list == [] {
        NothingGone(m, avs, live0);
        return false;
      }
      DeletableParts(m, avs, live0, live, tlb.marked, tlb.decayed, list, h);
      AboveItself(m, live0, live, tlb.marked, tlb.decayed, list, h);
      RemoveExtractedHandles(list);
      SettledAgain();
      return true;
    }

    lemma SettledParts(h: Handle)
      requires Settled()
      ensures tlb.marked == {} && tlb.decayed == {} && live == tlb.handleMap.Keys
      ensures Quiet(live, tlb.handleMap.Keys, {}, {})
      ensures Accounted(tlb.handleMap.Keys, live, {}) && StackBelow(live, {}, h)
    {
    }

    lemma SettledAgain()
      ensures Quiet(live, tlb.handleMap.Keys, tlb.marked, tlb.decayed) ==> Settled()
    {
    }

    // ------------------------------------------------------- decay

    method RemoveDecayedFromIndexes()
      requires tlb.Mirrors() && Catalogued(tlb.handleMap, tlb.avs, live) && Closed(GraphOf(tlb.handleMap), live)
      modifies nodeIndex`idx, linkIndex`idx, typeIndex`idx, targetTypeIndex`idx, importanceIndex`idx
      ensures Catalogued(tlb.handleMap, tlb.avs, live - tlb.decayed)
    {
      hide *;
      CatalogueParts(tlb.handleMap, tlb.avs, live, 0);
      LivePresent(tlb.handleMap, live);
      nodeIndex.RemoveDecayed(tlb, live);
      linkIndex.RemoveDecayed(tlb, live);
      typeIndex.RemoveDecayed(tlb, live);
      importanceIndex.RemoveDecayed(tlb, live);
      targetTypeIndex.RemoveDecayed(tlb, live);
      CatalogueAgain(tlb.handleMap, tlb.avs, live - tlb.decayed);
    }

    /** Takes the decayed atoms out of the set of atoms and out of the incoming lists of their targets.
        A target may go before the links that name it. */
    method ClearDecayed(list: seq<Handle>)
      requires tlb.Mirrors() && ValuesOk(tlb.handleMap, tlb.inc, live, size, atomSet)
      requires NoRepeats(list) && TargetsFirst(GraphOf(tlb.handleMap), list) && ElementsOf(list) <= live
      requires Closed(GraphOf(tlb.handleMap), live - ElementsOf(list))
      modifies this`size, this`atomSet, tlb`inc, tlb.atoms`incoming
      ensures tlb.Mirrors() && ValuesOk(tlb.handleMap, tlb.inc, live - ElementsOf(list), size, atomSet)
      ensures Removal(tlb.handleMap, live - ElementsOf(list), list)
    {
      hide *;
      ghost var m := tlb.handleMap;
      ValuesParts(m, tlb.inc, live, size, atomSet);
      ClearingBegins(m, tlb.inc, live, size, atomSet, list);
      for k := 0 to |list|
        invariant tlb.Mirrors() && tlb.handleMap == m
        invariant Clearing(m, tlb.inc, NotYet(live, list, k), size, atomSet)
      {
        var h := list[k];
        ghost var some := NotYet(live, list, k);
        ClearingNext(m, live, list, k);
        ClearingParts(m, tlb.inc, some, size, atomSet, h);
        ghost var inc, size0, atomSet0 := tlb.inc, size, atomSet;
        atomSet, size := atomSet - {tlb.handleMap[h].key}, size - 1;
        var ok := LeaveIncoming(h, some);
        ClearingStep(m, inc, tlb.inc, some, size0, atomSet0, h);
      }
      ClearingEnds(m, tlb.inc, live, size, atomSet, list);
    }

    /** Takes the decayed atoms out of the table; they wait for removal. */
    method ClearIndexes(list: seq<Handle>)
      requires Valid() && NoRepeats(list) && TargetsFirst(GraphOf(tlb.handleMap), list)
      requires ElementsOf(list) == tlb.decayed && tlb.decayed <= live
      requires Closed(GraphOf(tlb.handleMap), live - tlb.decayed)
      modifies this`size, this`atomSet, this`live, nodeIndex`idx, linkIndex`idx, typeIndex`idx, targetTypeIndex`idx,
        importanceIndex`idx
      modifies tlb`inc, tlb.atoms`incoming
      ensures Valid() && live == old(live) - tlb.decayed && Removal(tlb.handleMap, live, list)
    {
      hide *;
      ValidParts();
      RemoveDecayedFromIndexes();
      ClearDecayed(list);
      live := live - tlb.decayed;
      ValidAgain();
    }

    /** Takes out and deletes the atoms that decayed. */
    method ClearIndexesAndRemoveAtoms(list: seq<Handle>)
      requires Valid() && NoRepeats(list) && TargetsFirst(GraphOf(tlb.handleMap), list)
      requires ElementsOf(list) == tlb.decayed && tlb.decayed <= live && live == tlb.handleMap.Keys && tlb.marked == {}
      requires Closed(GraphOf(tlb.handleMap), live - tlb.decayed)
      modifies this`size, this`atomSet, this`live, nodeIndex`idx, linkIndex`idx, typeIndex`idx, targetTypeIndex`idx,
        importanceIndex`idx
      modifies tlb`handleMap, tlb`inc, tlb`avs, tlb`marked, tlb`decayed, tlb.atoms`handle, tlb.atoms`incoming
      ensures Valid() && Settled()
      ensures TookAway(old(tlb.handleMap), tlb.handleMap, old(tlb.avs), tlb.avs, old(live), live, old(tlb.decayed))
    {
      hide *;
      AfterClearing(tlb.handleMap, tlb.avs, live, tlb.decayed);
      ClearIndexes(list);
      RemoveExtractedHandles(list);
      SettledAgain();
    }

    /** One round of forgetting: every atom loses importance; then exactly those that are old, and named
        only by atoms that go as well, are deleted. */
    method DecayShortTermImportance(minSTI: Short)
      requires Valid() && Settled()
      modifies this`size, this`atomSet, this`live, nodeIndex`idx, linkIndex`idx, typeIndex`idx, targetTypeIndex`idx,
        importanceIndex`idx
      modifies tlb`handleMap, tlb`inc, tlb`avs, tlb`marked, tlb`decayed
      modifies tlb.atoms`handle, tlb.atoms`incoming, tlb.atoms`av, tlb.atoms`removedByDecay
      ensures Valid() && Settled()
      ensures var avs := DecayOf(old(tlb.avs), old(live));
        TookAway(old(tlb.handleMap), tlb.handleMap, avs, tlb.avs, old(live), live,
          AllDeepOld(GraphOf(old(tlb.handleMap)), old(live), avs, minSTI))
      // In the fields: every atom loses one unit, and exactly those go that are reached only by forgotten ones.
      ensures var avs := DecayOf(old(tlb.avs), old(live));
        && LostOneUnit(old(tlb.avs), old(live), avs)
        && LetGo(GraphOf(old(tlb.handleMap)), old(live), avs, minSTI, old(live) - live)
      ensures forall x, h ::
        x in old(live) && x in old(tlb.avs) && old(tlb.avs)[x].lti >= 1 ==>
          (Reaches(GraphOf(old(tlb.handleMap)), x, h) ==> h in live)
    {
      hide *;
      ghost var m, live0, avs := tlb.handleMap, live, tlb.avs;
      ValidParts();
      SettledParts(0);
      CatalogueParts(m, tlb.avs, live, 0);
      var oldAtoms := importanceIndex.DecayShortTermImportance(tlb, minSTI, live);
      CatalogueAgain(m, tlb.avs, live);
      ValidAgain();
      DeepOldLive(GraphOf(m), live, tlb.avs, minSTI);
      ForgottenGo(GraphOf(m), live, avs, minSTI);
      if oldAtoms == [] {
        NothingListed(GraphOf(m));
        NothingGone(m, tlb.avs, live);
        SettledAgain();
        assert live - {} == live;
        return;
      }
      ClearIndexesAndRemoveAtoms(oldAtoms);
      LiveAfter(m, tlb.handleMap, DecayOf(avs, live0), tlb.avs, live0, live,
                AllDeepOld(GraphOf(m), live0, DecayOf(avs, live0), minSTI));
    }

    // ------------------------------------------------------- lookup and insertion

    /** The node of this type and name, or the undefined handle. */
    method GetNode(t: nat, name: string) returns (r: Result<Handle, IndexError>)
      requires Valid()
      ensures r.Failure? <==> t >= types
      ensures r.Success? ==> Found(tlb.handleMap, live, NodeKey(t, name), r.value)
    {
      hide *;
      ValidParts();
      CatalogueParts(tlb.handleMap, tlb.avs, live, 0);
      LiveDefined();
      r := nodeIndex.GetHandle(t, name, GraphOf(tlb.handleMap), live);
      if r.Success? {
        FoundNode(tlb.handleMap, live, t, name, r.value);
      }
    }

    /** The link of this type with exactly these outgoing handles, or the undefined handle. A link of an
        unordered type is not found by handles that are not sorted. */
    method GetLink(t: nat, outgoing: seq<Handle>) returns (r: Result<Handle, IndexError>)
      requires Valid()
      ensures r.Failure? <==> t >= types
      ensures r.Success? ==> Found(tlb.handleMap, live, LinkKey(t, outgoing), r.value)
      ensures r.Success? ==>
        (r.value in live <==>
          HasLink(tlb.handleMap, live, t, outgoing, unorderedTypes) && (t in unorderedTypes ==> Sorted(outgoing)))
    {
      hide *;
      ValidParts();
      CatalogueParts(tlb.handleMap, tlb.avs, live, 0);
      LiveDefined();
      r := linkIndex.GetHandle(t, outgoing, GraphOf(tlb.handleMap), live);
      if r.Success? {
        FoundLink(tlb.handleMap, live, t, outgoing, r.value);
        LookupNeedsSorted(tlb.handleMap, live, unorderedTypes, t, outgoing, r.value);
      }
    }

    lemma LiveDefined()
      requires Valid()
      ensures UNDEFINED_HANDLE !in live && live <= GraphOf(tlb.handleMap).Keys
    {
      Known(UNDEFINED_HANDLE);
      ValidParts();
    }

    method InsertIntoIndexes(h: Handle)
      requires tlb.Mirrors() && Catalogued(tlb.handleMap, tlb.avs, live) && Closed(GraphOf(tlb.handleMap), live)
      requires h in tlb.handleMap && h !in live && !HasKey(tlb.handleMap, live, tlb.handleMap[h].key)
      requires forall t :: t in Outgoing(tlb.handleMap[h].key) ==> t in live
      modifies nodeIndex`idx, linkIndex`idx, typeIndex`idx, targetTypeIndex`idx, importanceIndex`idx
      ensures Catalogued(tlb.handleMap, tlb.avs, live + {h})
    {
      hide *;
      CatalogueParts(tlb.handleMap, tlb.avs, live, h);
      OtherKeys(tlb.handleMap, live, h);
      TargetsTyped(tlb.handleMap, live, h, types);
      nodeIndex.InsertHandle(tlb, h, live);
      linkIndex.InsertHandle(tlb, h, live);
      typeIndex.InsertHandle(tlb, h, live);
      targetTypeIndex.InsertHandle(tlb, h, live);
      importanceIndex.InsertHandle(tlb, h, live);
      CatalogueAgain(tlb.handleMap, tlb.avs, live + {h});
    }

    /** Puts a new link into the incoming lists of its targets. */
    method JoinIncoming(h: Handle)
      requires tlb.Mirrors() && h in tlb.handleMap && PartlyAttached(GraphOf(tlb.handleMap), live, tlb.inc, h, 0)
      requires forall t :: t in Outgoing(tlb.handleMap[h].key) ==> t in tlb.handleMap
      modifies tlb`inc, tlb.atoms`incoming
      ensures tlb.Mirrors() && IncomingOk(GraphOf(tlb.handleMap), live + {h}, tlb.inc)
    {
      hide Numbered, IncomingMirrored, AttentionMirrored, MarkedMirrored, DecayedMirrored, IncomingOk, PartlyAttached;
      ghost var g := GraphOf(tlb.handleMap);
      var key := tlb.handleMap[h].key;
      if key.LinkKey? {
        var outgoing := key.outgoing;
        for i := 0 to |outgoing|
          invariant tlb.Mirrors() && PartlyAttached(g, live, tlb.inc, h, i)
        {
          assert outgoing[i] in Outgoing(key);
          AttachNext(g, live, tlb.inc, h, i);
          tlb.AddIncoming(outgoing[i], h);
        }
      }
      AttachEnds(g, live, tlb.inc, h);
    }

    lemma NextHandle()
      requires tlb.Mirrors() && Settled()
      ensures tlb.brkUuid !in tlb.handleMap && tlb.brkUuid !in live && live == tlb.handleMap.Keys
      ensures forall h :: h in tlb.handleMap ==> h < tlb.brkUuid
    {
      hide IncomingMirrored, AttentionMirrored, MarkedMirrored, DecayedMirrored;
    }

    lemma AvsPresent()
      requires tlb.Mirrors()
      ensures forall h :: h in tlb.handleMap ==> h in tlb.avs
    {
      hide IncomingMirrored, Numbered, MarkedMirrored, DecayedMirrored;
    }

    lemma CatalogueGrows(h: Handle, atom: Atom)
      requires tlb.Mirrors() && Catalogued(tlb.handleMap, tlb.avs, live) && Closed(GraphOf(tlb.handleMap), live)
      requires Settled() && h !in tlb.handleMap && atom.key.atomType < types
      ensures Catalogued(tlb.handleMap[h := atom], tlb.avs[h := DEFAULT_AV], live)
    {
      hide Catalogued, Numbered, IncomingMirrored, AttentionMirrored, MarkedMirrored, DecayedMirrored, GraphOf;
      AvsPresent();
      CatalogueParts(tlb.handleMap, tlb.avs, live, h);
      GraphGrows(tlb.handleMap, live, h, atom);
      CatalogueTransfer(tlb.handleMap, tlb.handleMap[h := atom], tlb.avs, tlb.avs[h := DEFAULT_AV]);
    }

    /** Gives a new atom its handle, and enters it into the indexes and incoming lists. `size0` and
        `atomSet0` are as they were before the atom came. */
    method GiveHandle(atom: Atom, ghost size0: nat, ghost atomSet0: map<Key, Atom>) returns (h: Handle)
      requires tlb.Mirrors() && Catalogued(tlb.handleMap, tlb.avs, live) && Settled()
      requires ValuesOk(tlb.handleMap, tlb.inc, live, size0, atomSet0)
      requires atom.Unused() && atom.inTable && atom !in tlb.atoms && tlb.brkUuid < UNDEFINED_HANDLE
      requires atom.key.atomType < types && !HasKey(tlb.handleMap, live, atom.key)
      requires forall t :: t in Outgoing(atom.key) ==> t in live
      modifies nodeIndex`idx, linkIndex`idx, typeIndex`idx, targetTypeIndex`idx, importanceIndex`idx
      modifies tlb`handleMap, tlb`brkUuid, tlb`atoms, tlb`inc, tlb`avs
      modifies tlb.atoms`incoming, atom`handle, atom`incoming
      ensures tlb.Mirrors() && Catalogued(tlb.handleMap, tlb.avs, live + {h})
      ensures ValuesOk(tlb.handleMap, tlb.inc, live + {h}, size0 + 1, atomSet0[atom.key := atom])
      ensures Quiet(live + {h}, tlb.handleMap.Keys, tlb.marked, tlb.decayed)
      ensures h == old(tlb.brkUuid) && tlb.brkUuid == h + 1 && h !in old(tlb.handleMap)
      ensures tlb.handleMap == old(tlb.handleMap)[h := atom]
      ensures tlb.avs == old(tlb.avs)[h := DEFAULT_AV] && tlb.atoms == old(tlb.atoms) + {atom}
    {
      hide *;
      ghost var m, inc, avs := tlb.handleMap, tlb.inc, tlb.avs;
      ValuesParts(m, inc, live, size0, atomSet0);
      SettledParts(0);
      NextHandle();
      CatalogueGrows(tlb.brkUuid, atom);
      GraphReady(m, inc, live, tlb.brkUuid, atom);
      h := tlb.AddAtom(atom);
      InsertIntoIndexes(h);
      JoinIncoming(h);
      ValuesAdded(m, inc, tlb.inc, live, size0, atomSet0, h, atom);
    }

    lemma ValidHandle(h: Handle)
      requires tlb.Mirrors() && Settled()
      ensures tlb.IsValidHandle(h) <==> h in live
    {
      hide IncomingMirrored, AttentionMirrored, MarkedMirrored, DecayedMirrored;
    }

    method GetAtomHandle(key: Key) returns (r: Result<Handle, IndexError>)
      requires Valid()
      ensures r.Failure? <==> key.atomType >= types
      ensures r.Success? ==> Found(tlb.handleMap, live, key, r.value)
    {
      match key {
        case NodeKey(t, name) => r := GetNode(t, name);
        case LinkKey(t, outgoing) => r := GetLink(t, outgoing);
      }
    }

    method AllValid(key: Key) returns (ok: bool)
      requires tlb.Mirrors() && Settled()
      ensures ok <==> forall t :: t in Outgoing(key) ==> t in live
    {
      hide Numbered, IncomingMirrored, AttentionMirrored, MarkedMirrored, DecayedMirrored;
      if key.NodeKey? {
        return true;
      }
      var i := |key.outgoing| - 1;
      while i >= 0
        invariant -1 <= i < |key.outgoing|
        invariant forall k :: i < k < |key.outgoing| ==> key.outgoing[k] in live
      {
        ValidHandle(key.outgoing[i]);
        if !tlb.IsValidHandle(key.outgoing[i]) {
          assert key.outgoing[i] in Outgoing(key);
          return false;
        }
        i := i - 1;
      }
      return true;
    }

    /** Adds an atom that is not there yet. A link whose outgoing handles are not all valid is found out
        only after it went into the set of atoms. */
    method AddUnknown(atom: Atom) returns (r: Result<Handle, AddError>)
      requires Valid() && Settled() && atom.Unused() && atom !in tlb.atoms && tlb.brkUuid < UNDEFINED_HANDLE
      requires atom.key.atomType < types && !HasKey(tlb.handleMap, live, atom.key) && Normal(atom.key, unorderedTypes)
      modifies this`size, this`atomSet, this`live, nodeIndex`idx, linkIndex`idx, typeIndex`idx, targetTypeIndex`idx,
        importanceIndex`idx
      modifies tlb`handleMap, tlb`brkUuid, tlb`atoms, tlb`inc, tlb`avs
      modifies tlb.atoms`incoming, atom`handle, atom`incoming, atom`inTable
      ensures !old(forall t :: t in Outgoing(atom.key) ==> t in live) ==>
        && r == Failure(InvalidOutgoing)
        && unchanged(this`live, tlb, nodeIndex, linkIndex, typeIndex, targetTypeIndex, importanceIndex)
        && size == old(size) + 1 && atomSet == old(atomSet)[atom.key := atom] && !Valid()
      ensures old(forall t :: t in Outgoing(atom.key) ==> t in live) ==>
        && r == Success(old(tlb.brkUuid)) && Valid() && Settled() && atom.inTable && tlb.brkUuid == r.value + 1
        && tlb.handleMap == old(tlb.handleMap)[r.value := atom] && tlb.avs == old(tlb.avs)[r.value := DEFAULT_AV]
        && tlb.atoms == old(tlb.atoms) + {atom} && live == old(live) + {r.value}
    {
      hide *;
      ValidParts();
      ghost var size0, atomSet0 := size, atomSet;
      ValuesSize(tlb.handleMap, tlb.inc, live, size, atomSet, atomSet[atom.key := atom]);
      size, atomSet := size + 1, atomSet[atom.key := atom];
      var ok := AllValid(atom.key);
      if !ok {
        NotValid();
        return Failure(InvalidOutgoing);
      }
      atom.inTable := true;
      NormalAdded(tlb.handleMap, unorderedTypes, tlb.brkUuid, atom);
      var h := GiveHandle(atom, size0, atomSet0);
      live := live + {h};
      ValidAgain();
      SettledAgain();
      return Success(h);
    }

    /** Adds an atom, unless there is one with the same content already. A link whose outgoing handles
        are not all valid is found out only after it went into the set of atoms. */
    method Add(atom: Atom) returns (r: Result<Handle, AddError>)
      requires Valid() && Settled() && tlb.brkUuid < UNDEFINED_HANDLE
      requires atom.inTable ==> atom.handle in tlb.handleMap && tlb.handleMap[atom.handle] == atom
      requires !atom.inTable ==> atom.Unused() && atom !in tlb.atoms && Normal(atom.key, unorderedTypes)
      modifies this`size, this`atomSet, this`live, nodeIndex`idx, linkIndex`idx, typeIndex`idx, targetTypeIndex`idx,
        importanceIndex`idx
      modifies tlb`handleMap, tlb`brkUuid, tlb`atoms, tlb`inc, tlb`avs
      modifies tlb.atoms`incoming, atom`handle, atom`incoming, atom`inTable
      ensures old(Outcome(tlb.handleMap, live, types, atom)).AlreadyIn? ==>
        && r == Success(old(atom.handle)) && Valid() && Settled()
        && unchanged(this, tlb, nodeIndex, linkIndex, typeIndex, targetTypeIndex, importanceIndex)
      ensures old(Outcome(tlb.handleMap, live, types, atom)).NoSuchType? ==>
        && r == Failure(UnknownType) && Valid() && Settled()
        && unchanged(this, tlb, nodeIndex, linkIndex, typeIndex, targetTypeIndex, importanceIndex)
      ensures old(Outcome(tlb.handleMap, live, types, atom)).Duplicate? ==>
        && r.Success? && Found(tlb.handleMap, live, atom.key, r.value)
        && Valid() && Settled()
        && unchanged(this, tlb, nodeIndex, linkIndex, typeIndex, targetTypeIndex, importanceIndex)
      ensures old(Outcome(tlb.handleMap, live, types, atom)).Dangling? ==>
        && r == Failure(InvalidOutgoing)
        && unchanged(this`live, tlb, nodeIndex, linkIndex, typeIndex, targetTypeIndex, importanceIndex)
        && size == old(size) + 1 && atomSet == old(atomSet)[atom.key := atom] && !Valid()
      ensures old(Outcome(tlb.handleMap, live, types, atom)).New? ==>
        && r == Success(old(tlb.brkUuid)) && Valid() && Settled() && atom.inTable && tlb.brkUuid == r.value + 1
        && tlb.handleMap == old(tlb.handleMap)[r.value := atom] && tlb.avs == old(tlb.avs)[r.value := DEFAULT_AV]
        && tlb.atoms == old(tlb.atoms) + {atom} && live == old(live) + {r.value}
    {
      hide *;
      OutcomeMeans(tlb.handleMap, live, types, atom);
      if atom.inTable {
        return Success(atom.handle);
      }
      var existing := GetAtomHandle(atom.key);
      if existing.Failure? {
        return Failure(UnknownType);
      }
      SettledParts(0);
      ValidParts();
      ValidHandle(existing.value);
      LiveDefined();
      FoundMeans(tlb.handleMap, live, atom.key, existing.value);
      if tlb.IsValidHandle(existing.value) {
        return Success(existing.value);
      }
      r := AddUnknown(atom);
    }

    lemma NotValid()
      ensures !ValuesOk(tlb.handleMap, tlb.inc, live, size, atomSet) ==> !Valid()
    {
    }

    /** Changes the attention value of an atom in the table, and moves it to its new bin. */
    method SetAttentionValue(h: Handle, av: AttentionValue)
      requires Valid() && Settled() && h in live
      modifies importanceIndex`idx, tlb`avs, tlb.atoms`av
      ensures Valid() && Settled() && tlb.avs == old(tlb.avs)[h := av]
    {
      hide *;
      ValidParts();
      SettledParts(h);
      CatalogueParts(tlb.handleMap, tlb.avs, live, h);
      ghost var avs := tlb.avs;
      Known(h);
      InTable(h);
      var atom := ImportanceIndex.GetAtom(tlb, h);
      if av == atom.av {
        assert avs[h := av] == avs;
        return;
      }
      var oldBin := ImportanceBin(atom.av.sti);
      tlb.SetAttentionValue(h, av);
      if atom.inTable {
        importanceIndex.UpdateImportance(tlb, h, oldBin, avs, live);
      }
      CatalogueAgain(tlb.handleMap, tlb.avs, live);
      ValidAgain();
      SettledAgain();
    }

    lemma InTable(h: Handle)
      requires tlb.Mirrors() && h in tlb.handleMap
      ensures tlb.handleMap[h].inTable
    {
    }

    /** No two links of an unordered type are over the same atoms. */
    lemma LinksDiffer(x: Handle, y: Handle)
      requires Valid() && x in live && y in live && x in tlb.handleMap && y in tlb.handleMap
      requires tlb.handleMap[x].key.LinkKey? && tlb.handleMap[x].key.atomType in unorderedTypes
      requires IsLinkOf(tlb.handleMap[y].key, tlb.handleMap[x].key.atomType,
                        tlb.handleMap[x].key.outgoing, unorderedTypes)
      ensures x == y
    {
      hide Catalogued, Numbered, IncomingMirrored, AttentionMirrored, MarkedMirrored, DecayedMirrored;
      UnorderedUnique(tlb.handleMap, live, unorderedTypes, x, y);
    }
  }

  // ------------------------------------------------------- where the code does not do what was wanted

  /** A link that names an atom that is not in the table cannot be added, but leaves the table out of
      step. */
  method DanglingLink() returns (table: AtomTable, r: Result<Handle, AddError>)
    ensures r == Failure(InvalidOutgoing) && table.live == {} && table.size == 1 && !table.Valid()
  {
    assert 1 < UNDEFINED_HANDLE;
    hide *;
    table := new AtomTable(1, {});
    var link := new Atom.Link(0, [7], {});
    NamesSeven(link.key);
    OutcomeMeans(table.tlb.handleMap, {}, 1, link);
    EmptyTable(table);
    r := table.Add(link);
  }

  lemma NamesSeven(k: Key)
    requires k == NewLink(0, [7], {})
    ensures 7 in Outgoing(k) && k.atomType == 0
    ensures forall m: map<Handle, Atom> :: !HasKey(m, {}, k)
  {
  }

  lemma EmptyTable(table: AtomTable)
    requires table.Valid() && table.live == {}
    ensures table.size == 0
  {
    hide table.Catalogued;
  }
}
