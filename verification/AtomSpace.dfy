/** The atom space and its attention funds (opencog/atomspace/AtomSpace.cc). */
module AtomSpaces {
  import opened Wrappers
  import opened Handles
  import opened Atoms
  import opened AtomGraph
  import opened TLBs
  import opened ImportanceIndexes
  import opened AtomTableValues
  import opened AtomTables
  import opened AtomRuns
  import opened ClassServers
  import opened AtomQueries

  // ------------------------------------------------------- sums over all atoms

  /** The short-term importance of all atoms with handles below `n`. */
  ghost function SumSTI(avs: map<Handle, AttentionValue>, n: nat): int {
    if n == 0 then 0 else SumSTI(avs, n - 1) + STIAt(avs, n - 1)
  }

  ghost function SumLTI(avs: map<Handle, AttentionValue>, n: nat): int {
    if n == 0 then 0 else SumLTI(avs, n - 1) + LTIAt(avs, n - 1)
  }

  ghost function STIAt(avs: map<Handle, AttentionValue>, h: Handle): int {
    if h in avs then avs[h].sti else 0
  }

  ghost function LTIAt(avs: map<Handle, AttentionValue>, h: Handle): int {
    if h in avs then avs[h].lti else 0
  }

  lemma {:induction false} SumsSame(avs: map<Handle, AttentionValue>, avs': map<Handle, AttentionValue>, n: nat)
    requires forall h :: 0 <= h < n ==> STIAt(avs, h) == STIAt(avs', h) && LTIAt(avs, h) == LTIAt(avs', h)
    ensures SumSTI(avs, n) == SumSTI(avs', n) && SumLTI(avs, n) == SumLTI(avs', n)
  {
    if n > 0 {
      SumsSame(avs, avs', n - 1);
    }
  }

  /** Changing one atom changes the sums by the difference. */
  lemma {:induction false} SumsChange(avs: map<Handle, AttentionValue>, avs': map<Handle, AttentionValue>, n: nat,
                                      x: Handle)
    requires x < n
    requires forall h :: 0 <= h < n && h != x ==> STIAt(avs, h) == STIAt(avs', h) && LTIAt(avs, h) == LTIAt(avs', h)
    ensures SumSTI(avs', n) == SumSTI(avs, n) - STIAt(avs, x) + STIAt(avs', x)
    ensures SumLTI(avs', n) == SumLTI(avs, n) - LTIAt(avs, x) + LTIAt(avs', x)
  {
    if x == n - 1 {
      SumsSame(avs, avs', n - 1);
    } else {
      SumsChange(avs, avs', n - 1, x);
    }
  }

  /** The importance of the atoms in a list. */
  ghost function ListSTI(avs: map<Handle, AttentionValue>, list: seq<Handle>): int {
    if list == [] then 0 else ListSTI(avs, list[..|list| - 1]) + STIAt(avs, list[|list| - 1])
  }

  ghost function ListLTI(avs: map<Handle, AttentionValue>, list: seq<Handle>): int {
    if list == [] then 0 else ListLTI(avs, list[..|list| - 1]) + LTIAt(avs, list[|list| - 1])
  }

  lemma ListNext(avs: map<Handle, AttentionValue>, list: seq<Handle>, k: nat)
    requires k < |list|
    ensures ListSTI(avs, list[..k + 1]) == ListSTI(avs, list[..k]) + STIAt(avs, list[k])
    ensures ListLTI(avs, list[..k + 1]) == ListLTI(avs, list[..k]) + LTIAt(avs, list[k])
  {
    assert list[..k + 1][..k] == list[..k];
  }

  /** Taking away the atoms of a list takes away their importance. */
  lemma {:induction false} SumsWithout(avs: map<Handle, AttentionValue>, list: seq<Handle>, n: nat)
    requires NoRepeats(list) && forall h :: h in list ==> h < n
    ensures SumSTI(avs - ElementsOf(list), n) == SumSTI(avs, n) - ListSTI(avs, list)
    ensures SumLTI(avs - ElementsOf(list), n) == SumLTI(avs, n) - ListLTI(avs, list)
  {
    if list == [] {
      assert avs - ElementsOf(list) == avs;
    } else {
      var k := |list| - 1;
      assert forall h :: h in list[..k] ==> h in list;
      var some, all := avs - ElementsOf(list[..k]), avs - ElementsOf(list);
      assert list == list[..k] + [list[k]];
      SumsWithout(avs, list[..k], n);
      ElementsJoin(list[..k], [list[k]]);
      assert list[k] !in ElementsOf(list[..k]);
      forall h | 0 <= h < n && h != list[k] ensures STIAt(some, h) == STIAt(all, h) && LTIAt(some, h) == LTIAt(all, h) {
      }
      SumsChange(some, all, n, list[k]);
    }
  }

  /** What must stay: the funds together with the importance of all atoms. */
  ghost function TotalSTI(funds: int, s: State): int {
    funds + SumSTI(s.avs, s.next)
  }

  ghost function TotalLTI(funds: int, s: State): int {
    funds + SumLTI(s.avs, s.next)
  }

  /** A new atom brings no importance. */
  lemma AddedTotals(s: State, k: Key, sti: int, lti: int)
    requires s.next !in s.avs
    ensures TotalSTI(sti - DEFAULT_AV.sti, Added(s, k)) == TotalSTI(sti, s)
    ensures TotalLTI(lti - DEFAULT_AV.lti, Added(s, k)) == TotalLTI(lti, s)
    ensures TotalSTI(sti, Added(s, k)) == TotalSTI(sti, s) && TotalLTI(lti, Added(s, k)) == TotalLTI(lti, s)
  {
    SumsSame(s.avs, s.avs[s.next := DEFAULT_AV], s.next);
  }

  /** The funds pay for the difference. */
  lemma ChangedTotals(s: State, h: Handle, av: AttentionValue, sti: int, lti: int)
    requires h in s.avs && h < s.next
    ensures TotalSTI(sti + (s.avs[h].sti - av.sti), State(s.g, s.avs[h := av], s.next)) == TotalSTI(sti, s)
    ensures TotalLTI(lti + (s.avs[h].lti - av.lti), State(s.g, s.avs[h := av], s.next)) == TotalLTI(lti, s)
  {
    SumsChange(s.avs, s.avs[h := av], s.next, h);
  }

  lemma SetAllowed(s: State, h: Handle, av: AttentionValue, unorderedTypes: set<nat>)
    requires h in s.g
    ensures Applied(s, SetValue(h, av), unorderedTypes) == State(s.g, s.avs[h := av], s.next)
  {
  }

  lemma NothingAdded(m: map<Handle, Atom>, avs: map<Handle, AttentionValue>, next: Handle, k: Key, h: Handle)
    requires Found(m, m.Keys, k, h) && UNDEFINED_HANDLE !in m
    ensures h in m ==>
      && Added(State(GraphOf(m), avs, next), k) == State(GraphOf(m), avs, next)
      && IsUnder(State(GraphOf(m), avs, next), k, h)
  {
    if h in m {
      assert h in GraphOf(m) && GraphOf(m)[h] == k;
    }
  }

  /** The state after the atoms of a list are gone, with their importance paid back. */
  lemma PaidBack(s: State, list: seq<Handle>, sti: int, lti: int)
    requires NoRepeats(list) && forall h :: h in list ==> h < s.next
    ensures TotalSTI(sti + ListSTI(s.avs, list), Removed(s, ElementsOf(list))) == TotalSTI(sti, s)
    ensures TotalLTI(lti + ListLTI(s.avs, list), Removed(s, ElementsOf(list))) == TotalLTI(lti, s)
  {
    SumsWithout(s.avs, list, s.next);
  }

  lemma ListNothing(avs: map<Handle, AttentionValue>)
    ensures ListSTI(avs, []) == 0 && ListLTI(avs, []) == 0
  {
  }

  lemma ListKnown(m: map<Handle, Atom>, live0: set<Handle>, live: set<Handle>, marked: set<Handle>,
                  decayed: set<Handle>,
                  list: seq<Handle>, h: Handle)
    requires Deletable(m, live0, live, marked, decayed, list, h)
    ensures NoRepeats(list) && ElementsOf(list) == Above(GraphOf(m), live0, h)
    ensures forall i :: 0 <= i < |list| ==> list[i] in m && list[i] in GraphOf(m)
  {
  }

  lemma RemovedNow(m: map<Handle, Atom>, s: State, gone: set<Handle>)
    requires s.g == GraphOf(m)
    ensures Removed(s, gone) == State(GraphOf(m - gone), s.avs - gone, s.next)
  {
    RemovedSays(m, gone);
  }

  /** Every atom is of the root type. */
  lemma AllListed(m: map<Handle, Atom>, live: set<Handle>, hier: Hierarchy, list: seq<Handle>, types: nat)
    requires KnownTypes(m, types) && hier.Ok(types)
    requires forall h :: Count(list, h) == if h in live && HasType(m, hier, hier.atom, true, h) then 1 else 0
    ensures forall h :: h in live && h in m ==> h in list
  {
    forall h | h in live && h in m ensures h in list {
      assert hier.IsA(m[h].key.atomType, hier.atom);
      assert Count(list, h) > 0;
    }
  }

  /** What is removed is gone. */
  lemma OneLess(s: State, list: seq<Handle>, i: nat, unorderedTypes: set<nat>)
    requires i < |list| && forall h :: h in s.g ==> h in list[i..]
    ensures forall h :: h in Applied(s, AtomRuns.RemoveAtom(list[i], true), unorderedTypes).g ==> h in list[i + 1..]
  {
    assert list[i..] == [list[i]] + list[i + 1..];
    assert Reaches(s.g, list[i], list[i]);
  }

  lemma NothingLeft(table: AtomTable, s: State, sti: int, lti: int)
    requires Ready(table, table.types, s) && forall h :: h !in s.g
    ensures table.live == {} && table.tlb.handleMap == map[] && TotalSTI(sti, s) == sti && TotalLTI(lti, s) == lti
  {
    hide ValuesOk, IncomingMirrored, MarkedMirrored, DecayedMirrored, Numbered;
    ReadyParts(table, table.types, s);
    assert table.tlb.avs.Keys == table.tlb.handleMap.Keys == {};
    SumsOfNothing(s.avs, s.next);
  }

  lemma {:induction false} SumsOfNothing(avs: map<Handle, AttentionValue>, n: nat)
    requires avs == map[]
    ensures SumSTI(avs, n) == 0 && SumLTI(avs, n) == 0
  {
    if n > 0 {
      SumsOfNothing(avs, n - 1);
    }
  }

  class AtomSpace {
    const table: AtomTable
    var fundsSTI: int
    var fundsLTI: int

    constructor (types: nat, unorderedTypes: set<nat>, stiFunds: int, ltiFunds: int)
      ensures fresh(table) && fresh(table.tlb) && fresh(table.nodeIndex) && fresh(table.linkIndex)
      ensures fresh(table.typeIndex)
      ensures fresh(table.targetTypeIndex) && fresh(table.importanceIndex) && table.tlb.atoms == {}
      ensures table.Valid() && table.Settled() && table.types == types && table.unorderedTypes == unorderedTypes
      ensures table.live == {}
      ensures table.tlb.handleMap == map[] && table.tlb.brkUuid == 1
      ensures fundsSTI == stiFunds && fundsLTI == ltiFunds
    {
      table := new AtomTable(types, unorderedTypes);
      fundsSTI, fundsLTI := stiFunds, ltiFunds;
    }

    /** Replaces the attention value of an atom, paying the difference from the funds. */
    method SetAV(h: Handle, av: AttentionValue, ghost s: State)
      requires Ready(table, table.types, s) && h in s.g
      modifies this`fundsSTI, this`fundsLTI, table.importanceIndex`idx, table.tlb`avs, table.tlb.atoms`av
      ensures Ready(table, table.types, Applied(s, SetValue(h, av), table.unorderedTypes))
      ensures TotalSTI(fundsSTI, Applied(s, SetValue(h, av), table.unorderedTypes)) == TotalSTI(old(fundsSTI), s)
      ensures TotalLTI(fundsLTI, Applied(s, SetValue(h, av), table.unorderedTypes)) == TotalLTI(old(fundsLTI), s)
    {
      hide *;
      ReadyParts(table, table.types, s);
      table.ValidParts();
      SetAllowed(s, h, av, table.unorderedTypes);
      table.Known(h);
      ChangedTotals(s, h, av, fundsSTI, fundsLTI);
      var oldAV := ImportanceIndex.GetAtom(table.tlb, h).av;
      fundsSTI := fundsSTI + (oldAV.sti - av.sti);
      fundsLTI := fundsLTI + (oldAV.lti - av.lti);
      table.SetAttentionValue(h, av);
      ReadyAgain(table, table.types);
    }

    method SetSTI(h: Handle, sti: Short, ghost s: State)
      requires Ready(table, table.types, s) && h in s.g && h in s.avs
      modifies this`fundsSTI, this`fundsLTI, table.importanceIndex`idx, table.tlb`avs, table.tlb.atoms`av
      ensures var s' := Applied(s, SetValue(h, s.avs[h].(sti := sti)), table.unorderedTypes);
              && Ready(table, table.types, s')
              && TotalSTI(fundsSTI, s') == TotalSTI(old(fundsSTI), s)
              && TotalLTI(fundsLTI, s') == TotalLTI(old(fundsLTI), s)
    {
      hide Ready, Applied, TotalSTI, TotalLTI;
      var av := AttentionOf(h, s);
      SetAV(h, AttentionValue(sti, av.lti, av.vlti), s);
    }

    method SetLTI(h: Handle, lti: Short, ghost s: State)
      requires Ready(table, table.types, s) && h in s.g && h in s.avs
      modifies this`fundsSTI, this`fundsLTI, table.importanceIndex`idx, table.tlb`avs, table.tlb.atoms`av
      ensures var s' := Applied(s, SetValue(h, s.avs[h].(lti := lti)), table.unorderedTypes);
              && Ready(table, table.types, s')
              && TotalSTI(fundsSTI, s') == TotalSTI(old(fundsSTI), s)
              && TotalLTI(fundsLTI, s') == TotalLTI(old(fundsLTI), s)
    {
      hide Ready, Applied, TotalSTI, TotalLTI;
      var av := AttentionOf(h, s);
      SetAV(h, AttentionValue(av.sti, lti, av.vlti), s);
    }

    method SetVLTI(h: Handle, vlti: nat, ghost s: State)
      requires Ready(table, table.types, s) && h in s.g && h in s.avs
      modifies this`fundsSTI, this`fundsLTI, table.importanceIndex`idx, table.tlb`avs, table.tlb.atoms`av
      ensures var s' := Applied(s, SetValue(h, s.avs[h].(vlti := vlti)), table.unorderedTypes);
              && Ready(table, table.types, s')
              && TotalSTI(fundsSTI, s') == TotalSTI(old(fundsSTI), s)
              && TotalLTI(fundsLTI, s') == TotalLTI(old(fundsLTI), s)
    {
      hide Ready, Applied, TotalSTI, TotalLTI;
      var av := AttentionOf(h, s);
      SetAV(h, AttentionValue(av.sti, av.lti, vlti), s);
    }

    method AttentionOf(h: Handle, ghost s: State) returns (av: AttentionValue)
      requires Ready(table, table.types, s) && h in s.g
      ensures h in s.avs && av == s.avs[h]
    {
      hide *;
      ReadyParts(table, table.types, s);
      table.ValidParts();
      table.Known(h);
      av := ImportanceIndex.GetAtom(table.tlb, h).av;
    }

    /** Adds a node, unless there is one of this type and name. */
    method AddNode(t: nat, name: string, ghost s: State) returns (r: Result<Handle, AddError>)
      requires Ready(table, table.types, s) && s.next < UNDEFINED_HANDLE
      modifies this`fundsSTI, this`fundsLTI, table, table.tlb, table.tlb.atoms, table.nodeIndex, table.linkIndex
      modifies table.typeIndex, table.targetTypeIndex, table.importanceIndex
      ensures fundsSTI == old(fundsSTI) && fundsLTI == old(fundsLTI)
      ensures t >= table.types ==> r == Failure(UnknownType) && Ready(table, table.types, s)
      ensures t < table.types ==>
        && r.Success? && IsUnder(Added(s, NodeKey(t, name)), NodeKey(t, name), r.value)
        && Ready(table, table.types, Added(s, NodeKey(t, name)))
        && TotalSTI(fundsSTI, Added(s, NodeKey(t, name))) == TotalSTI(old(fundsSTI), s)
        && TotalLTI(fundsLTI, Added(s, NodeKey(t, name))) == TotalLTI(old(fundsLTI), s)
      ensures fresh(table.tlb.atoms - old(table.tlb.atoms))
    {
      hide *;
      ReadyParts(table, table.types, s);
      var existing := table.GetNode(t, name);
      if existing.Failure? {
        return Failure(UnknownType);
      }
      UndefinedNot(table);
      NothingAdded(table.tlb.handleMap, table.tlb.avs, table.tlb.brkUuid, NodeKey(t, name), existing.value);
      table.ValidParts();
      table.ValidHandle(existing.value);
      if table.tlb.IsValidHandle(existing.value) {
        return Success(existing.value);
      }
      NextUnused(table, s);
      AddedTotals(s, NodeKey(t, name), fundsSTI, fundsLTI);
      NoImportance();
      fundsSTI := fundsSTI - DEFAULT_AV.sti;
      fundsLTI := fundsLTI - DEFAULT_AV.lti;
      var atom := new Atom.Node(t, name);
      NoTargets(s, t, name, table.unorderedTypes);
      r := PerformAdd(table, atom, s);
    }

    /** Adds a link, unless there is one. The first look at the index uses the handles as given, which
        finds no unordered link when they are not sorted; the table then looks again. A link that names
        something that is not in the table fails after the funds were lowered, and leaves the table out of
        step. */
    method AddLink(t: nat, outgoing: seq<Handle>, ghost s: State) returns (r: Result<Handle, AddError>)
      requires Ready(table, table.types, s) && s.next < UNDEFINED_HANDLE
      modifies this`fundsSTI, this`fundsLTI, table, table.tlb, table.tlb.atoms, table.nodeIndex, table.linkIndex
      modifies table.typeIndex, table.targetTypeIndex, table.importanceIndex
      ensures fundsSTI == old(fundsSTI) && fundsLTI == old(fundsLTI)
      ensures t >= table.types ==> r == Failure(UnknownType) && Ready(table, table.types, s)
      ensures t < table.types && (forall h :: h in outgoing ==> h in s.g) ==>
        var k := NewLink(t, outgoing, table.unorderedTypes);
        && r.Success? && IsUnder(Added(s, k), k, r.value) && Ready(table, table.types, Added(s, k))
        && TotalSTI(fundsSTI, Added(s, k)) == TotalSTI(old(fundsSTI), s)
        && TotalLTI(fundsLTI, Added(s, k)) == TotalLTI(old(fundsLTI), s)
      ensures t < table.types && !(forall h :: h in outgoing ==> h in s.g) ==>
        && r == Failure(InvalidOutgoing) && !table.Valid()
        && fundsSTI == old(fundsSTI) - DEFAULT_AV.sti && fundsLTI == old(fundsLTI) - DEFAULT_AV.lti
      ensures fresh(table.tlb.atoms - old(table.tlb.atoms))
    {
      hide *;
      ReadyParts(table, table.types, s);
      TargetsIn(s, t, outgoing, table.unorderedTypes);
      ghost var k := NewLink(t, outgoing, table.unorderedTypes);
      var existing := table.GetLink(t, outgoing);
      if existing.Failure? {
        return Failure(UnknownType);
      }
      UndefinedNot(table);
      NothingAdded(table.tlb.handleMap, table.tlb.avs, table.tlb.brkUuid, LinkKey(t, outgoing), existing.value);
      table.ValidParts();
      table.ValidHandle(existing.value);
      if table.tlb.IsValidHandle(existing.value) {
        FoundNormal(table.tlb.handleMap, table.live, t, outgoing, table.unorderedTypes, existing.value);
        FoundGrounded(s, table.tlb.handleMap, table.live, t, outgoing, existing.value);
        return Success(existing.value);
      }
      NextUnused(table, s);
      AddedTotals(s, k, fundsSTI, fundsLTI);
      NoImportance();
      fundsSTI := fundsSTI - DEFAULT_AV.sti;
      fundsLTI := fundsLTI - DEFAULT_AV.lti;
      var atom := new Atom.Link(t, outgoing, table.unorderedTypes);
      r := PerformAdd(table, atom, s);
    }

    /** Removes an atom, and pays the importance of all that goes back to the funds. The answer is whether the
        atom was there and is gone. */
    method RemoveAtom(h: Handle, recursive: bool, ghost s: State) returns (ok: bool)
      requires Ready(table, table.types, s)
      modifies this`fundsSTI, this`fundsLTI, table, table.tlb, table.tlb.atoms, table.nodeIndex, table.linkIndex
      modifies table.typeIndex, table.targetTypeIndex, table.importanceIndex
      ensures Ready(table, table.types, Applied(s, AtomRuns.RemoveAtom(h, recursive), table.unorderedTypes))
      ensures TotalSTI(fundsSTI, Applied(s, AtomRuns.RemoveAtom(h, recursive), table.unorderedTypes)) ==
        TotalSTI(old(fundsSTI), s)
      ensures TotalLTI(fundsLTI, Applied(s, AtomRuns.RemoveAtom(h, recursive), table.unorderedTypes)) ==
        TotalLTI(old(fundsLTI), s)
      ensures ok <==> h in old(table.live) && h !in table.live
      ensures ok <==> h in s.g && (recursive || forall l :: l in s.g ==> h !in Outgoing(s.g[l]))
      ensures table.tlb.atoms == old(table.tlb.atoms)
    {
      hide *;
      ghost var m, avs, live0 := table.tlb.handleMap, table.tlb.avs, table.live;
      RemovalMeans(table, s, h, recursive);
      var list := table.ExtractForRemoval(h, recursive);
      if list == [] {
        ReadyAgain(table, table.types);
        return false;
      }
      DeletableParts(m, avs, live0, table.live, table.tlb.marked, table.tlb.decayed, list, h);
      ListKnown(m, live0, table.live, table.tlb.marked, table.tlb.decayed, list, h);
      AboveItself(m, live0, table.live, table.tlb.marked, table.tlb.decayed, list, h);
      RefundAndDelete(list, s);
      return true;
    }

    /** The second half of `RemoveAtom`. */
    method RefundAndDelete(list: seq<Handle>, ghost s: State)
      requires table.Valid() && Removal(table.tlb.handleMap, table.live, list) && NoRepeats(list)
      requires s == State(GraphOf(table.tlb.handleMap), table.tlb.avs, table.tlb.brkUuid)
      requires forall i :: 0 <= i < |list| ==> list[i] in table.tlb.handleMap && list[i] < s.next
      requires Quiet(table.live, (table.tlb.handleMap - ElementsOf(list)).Keys, table.tlb.marked - ElementsOf(list),
        table.tlb.decayed - ElementsOf(list))
      modifies this`fundsSTI, this`fundsLTI
      modifies table.tlb`handleMap, table.tlb`inc, table.tlb`avs, table.tlb`marked, table.tlb`decayed,
        table.tlb.atoms`handle
      ensures Ready(table, table.types, Removed(s, ElementsOf(list)))
      ensures TotalSTI(fundsSTI, Removed(s, ElementsOf(list))) == TotalSTI(old(fundsSTI), s)
      ensures TotalLTI(fundsLTI, Removed(s, ElementsOf(list))) == TotalLTI(old(fundsLTI), s)
    {
      hide *;
      table.ValidParts();
      RemovedNow(table.tlb.handleMap, s, ElementsOf(list));
      Refund(list, s);
      table.RemoveExtractedHandles(list);
      table.SettledAgain();
      ReadyAgain(table, table.types);
    }

    /** Adds the importance of extracted atoms, which are still in the map of handles, to the funds. */
    method Refund(list: seq<Handle>, ghost s: State)
      requires table.tlb.Mirrors() && table.tlb.avs == s.avs && NoRepeats(list)
      requires forall i :: 0 <= i < |list| ==> list[i] in table.tlb.handleMap && list[i] < s.next
      modifies this`fundsSTI, this`fundsLTI
      ensures TotalSTI(fundsSTI, Removed(s, ElementsOf(list))) == TotalSTI(old(fundsSTI), s)
      ensures TotalLTI(fundsLTI, Removed(s, ElementsOf(list))) == TotalLTI(old(fundsLTI), s)
    {
      hide TotalSTI, TotalLTI, ListSTI, ListLTI, Numbered, IncomingMirrored, MarkedMirrored, DecayedMirrored, Removed;
      ghost var sti, lti := fundsSTI, fundsLTI;
      ListNothing(s.avs);
      assert list[..0] == [];
      for k := 0 to |list|
        invariant fundsSTI == sti + ListSTI(s.avs, list[..k]) && fundsLTI == lti + ListLTI(s.avs, list[..k])
      {
        ListNext(s.avs, list, k);
        var av := ImportanceIndex.GetAtom(table.tlb, list[k]).av;
        fundsSTI := fundsSTI + av.sti;
        fundsLTI := fundsLTI + av.lti;
      }
      assert list[..|list|] == list;
      PaidBack(s, list, sti, lti);
    }

    /** Removes all atoms: every atom of the root type or a subtype, one after the other. All importance
        is back in the funds. */
    method Clear(server: ClassServer, hier: Hierarchy, ghost s: State)
      requires Ready(table, table.types, s) && hier.Ok(table.types)
      requires hier.rec == server.recursiveMap && hier.n == server.nTypes
      modifies this`fundsSTI, this`fundsLTI, table, table.tlb, table.tlb.atoms, table.nodeIndex, table.linkIndex
      modifies table.typeIndex, table.targetTypeIndex, table.importanceIndex
      ensures table.Valid() && table.Settled() && table.live == {} && table.tlb.handleMap == map[]
      ensures fundsSTI == TotalSTI(old(fundsSTI), s) && fundsLTI == TotalLTI(old(fundsLTI), s)
    {
      hide *;
      ReadyParts(table, table.types, s);
      TypeIndexHolds(table);
      var allAtoms := GetHandleSetByType(table, server, hier, hier.atom, true);
      AllListed(table.tlb.handleMap, table.live, hier, allAtoms, table.types);
      ghost var now, sti, lti := s, fundsSTI, fundsLTI;
      assert allAtoms[0..] == allAtoms;
      for i := 0 to |allAtoms|
        invariant Ready(table, table.types, now) && table.tlb.atoms == old(table.tlb.atoms)
        invariant TotalSTI(fundsSTI, now) == TotalSTI(sti, s) && TotalLTI(fundsLTI, now) == TotalLTI(lti, s)
        invariant forall h :: h in now.g ==> h in allAtoms[i..]
      {
        OneLess(now, allAtoms, i, table.unorderedTypes);
        var removed := RemoveAtom(allAtoms[i], true, now);
        now := Applied(now, AtomRuns.RemoveAtom(allAtoms[i], true), table.unorderedTypes);
      }
      NothingLeft(table, now, fundsSTI, fundsLTI);
      ReadyParts(table, table.types, now);
    }

    lemma NoTargets(s: State, t: nat, name: string, unorderedTypes: set<nat>)
      ensures Grounded(s, NodeKey(t, name)) && Normal(NodeKey(t, name), unorderedTypes)
    {
    }
  }

  lemma RemovalMeans(table: AtomTable, s: State, h: Handle, recursive: bool)
    requires Ready(table, table.types, s)
    ensures table.Valid() && table.Settled()
    ensures s == State(GraphOf(table.tlb.handleMap), table.tlb.avs, table.tlb.brkUuid)
    ensures forall x :: x in table.tlb.handleMap ==> x < s.next
    ensures var removable := table.Removable(h, recursive);
      && (removable ==> h in table.live)
      && (removable <==> h in s.g && (recursive || forall l :: l in s.g ==> h !in Outgoing(s.g[l])))
      && Applied(s, AtomRuns.RemoveAtom(h, recursive), table.unorderedTypes) ==
           if removable then Removed(s, Above(GraphOf(table.tlb.handleMap), table.live, h)) else s
  {
    hide *;
    ReadyParts(table, table.types, s);
    NextUnused(table, s);
    RemoveSays(s, table.tlb.inc, table.live, h, recursive, table.unorderedTypes);
    table.RemovableMeans(h, recursive);
    RemovableInState(s, table.tlb.inc, table.live, h, recursive);
    NothingGone(table.tlb.handleMap, table.tlb.avs, table.live);
    RemovedState(table.tlb.handleMap, table.tlb.handleMap, table.tlb.avs, table.tlb.avs, table.live, table.live, {},
                 table.tlb.brkUuid);
  }

  lemma RemovableInState(s: State, inc: map<Handle, seq<Handle>>, live: set<Handle>, h: Handle, recursive: bool)
    requires IncomingOk(s.g, live, inc) && live == s.g.Keys
    ensures h in live && (recursive || (h in inc && inc[h] == [])) <==>
      h in s.g && (recursive || forall l :: l in s.g ==> h !in Outgoing(s.g[l]))
  {
    hide IncomingOk;
    if h in s.g {
      NamedByNoLink(s.g, inc, h);
      IncomingKeys(s.g, live, inc);
    }
  }

  /** What is found under the handles as given was given in normal form. */
  lemma FoundNormal(m: map<Handle, Atom>, live: set<Handle>, t: nat, outgoing: seq<Handle>, unorderedTypes: set<nat>,
                    h: Handle)
    requires Found(m, live, LinkKey(t, outgoing), h) && h in live && NormalLinks(m, unorderedTypes)
    requires UNDEFINED_HANDLE !in live
    ensures LinkKey(t, outgoing) == NewLink(t, outgoing, unorderedTypes)
  {
    NewLinkNormal(t, outgoing, unorderedTypes);
  }

  /** A link in the table names only atoms in the table. */
  lemma FoundGrounded(s: State, m: map<Handle, Atom>, live: set<Handle>, t: nat, outgoing: seq<Handle>, h: Handle)
    requires Found(m, live, LinkKey(t, outgoing), h) && h in live && UNDEFINED_HANDLE !in live
    requires s.g == GraphOf(m) && live == m.Keys && Closed(s.g, live)
    ensures forall x :: x in outgoing ==> x in s.g
  {
    assert h in m && s.g[h] == LinkKey(t, outgoing);
    forall x | x in outgoing ensures x in s.g {
      assert x in Outgoing(s.g[h]);
    }
  }

  /** A new atom has no importance of its own. */
  lemma NoImportance()
    ensures DEFAULT_AV.sti == 0 && DEFAULT_AV.lti == 0 && DEFAULT_AV.vlti == 0
  {
  }

  lemma UndefinedNot(table: AtomTable)
    requires table.Valid()
    ensures UNDEFINED_HANDLE !in table.tlb.handleMap
  {
    table.Known(UNDEFINED_HANDLE);
  }

  lemma NextUnused(table: AtomTable, s: State)
    requires Ready(table, table.types, s)
    ensures s.next !in s.avs && forall h :: h in s.g ==> h in s.avs && h < s.next
  {
    hide ValuesOk, IncomingMirrored, MarkedMirrored, DecayedMirrored;
    ReadyParts(table, table.types, s);
    table.Known(s.next);
    forall h | h in s.g ensures h in s.avs && h < s.next {
      table.Known(h);
    }
  }

  // ------------------------------------------------------- whole runs

  /** What each operation is on the plain model. */
  lemma SpaceOperation(s: State, op: Operation, types: nat, unorderedTypes: set<nat>)
    requires Allowed(s, op, types) && !op.Decay?
    ensures op.AddNode? ==>
      op.atomType < types && Applied(s, op, unorderedTypes) == Added(s, NodeKey(op.atomType, op.name))
    ensures op.AddLink? ==>
      op.atomType < types && (forall h :: h in op.handles ==> h in s.g)
      && Applied(s, op, unorderedTypes) == Added(s, NewLink(op.atomType, op.handles, unorderedTypes))
    ensures op.RemoveAtom? ==> op == AtomRuns.RemoveAtom(op.h, op.recursive)
    ensures op.SetValue? ==> op.h in s.g && op == SetValue(op.h, op.av)
  {
    hide Added, Removed, NewLink, Above;
  }

  method Perform(space: AtomSpace, op: Operation, ghost s: State)
    requires Ready(space.table, space.table.types, s) && s.next < UNDEFINED_HANDLE
    requires Allowed(s, op, space.table.types) && !op.Decay?
    modifies space, space.table, space.table.tlb, space.table.tlb.atoms, space.table.nodeIndex, space.table.linkIndex
    modifies space.table.typeIndex, space.table.targetTypeIndex, space.table.importanceIndex
    ensures Ready(space.table, space.table.types, Applied(s, op, space.table.unorderedTypes))
    ensures TotalSTI(space.fundsSTI, Applied(s, op, space.table.unorderedTypes)) == TotalSTI(old(space.fundsSTI), s)
    ensures TotalLTI(space.fundsLTI, Applied(s, op, space.table.unorderedTypes)) == TotalLTI(old(space.fundsLTI), s)
    ensures fresh(space.table.tlb.atoms - old(space.table.tlb.atoms))
  {
    hide *;
    SpaceOperation(s, op, space.table.types, space.table.unorderedTypes);
    if op.AddNode? {
      var r := space.AddNode(op.atomType, op.name, s);
    } else if op.AddLink? {
      var r := space.AddLink(op.atomType, op.handles, s);
    } else if op.RemoveAtom? {
      var ok := space.RemoveAtom(op.h, op.recursive, s);
    } else {
      space.SetAV(op.h, op.av, s);
    }
  }

  /** Over any run without decay from an empty space the funds and the importance of all atoms together
      stay what the funds were at the start. */
  method Run(ops: seq<Operation>, types: nat, unorderedTypes: set<nat>, sti: int, lti: int) returns (space: AtomSpace)
    requires |ops| < UNDEFINED_HANDLE - 1
    requires forall i :: 0 <= i < |ops| ==> Allowed(After(ops[..i], unorderedTypes), ops[i], types) && !ops[i].Decay?
    ensures fresh(space) && Ready(space.table, types, After(ops, unorderedTypes))
    ensures TotalSTI(space.fundsSTI, After(ops, unorderedTypes)) == sti
    ensures TotalLTI(space.fundsLTI, After(ops, unorderedTypes)) == lti
  {
    hide *;
    space := new AtomSpace(types, unorderedTypes, sti, lti);
    SpaceBegins(space.table, ops, unorderedTypes, sti, lti);
    for i := 0 to |ops|
      invariant fresh(space) && fresh(space.table) && fresh(space.table.tlb) && fresh(space.table.tlb.atoms)
      invariant fresh(space.table.nodeIndex) && fresh(space.table.linkIndex) && fresh(space.table.typeIndex)
      invariant fresh(space.table.targetTypeIndex) && fresh(space.table.importanceIndex)
      invariant space.table.types == types && space.table.unorderedTypes == unorderedTypes
      invariant Ready(space.table, types, After(ops[..i], unorderedTypes))
      invariant After(ops[..i], unorderedTypes).next <= i + 1
      invariant TotalSTI(space.fundsSTI, After(ops[..i], unorderedTypes)) == sti
      invariant TotalLTI(space.fundsLTI, After(ops[..i], unorderedTypes)) == lti
    {
      AfterNext(ops, i, unorderedTypes);
      NextGrows(ops, i, unorderedTypes);
      Perform(space, ops[i], After(ops[..i], unorderedTypes));
    }
    assert ops[..|ops|] == ops;
  }

  lemma SpaceBegins(table: AtomTable, ops: seq<Operation>, unorderedTypes: set<nat>, sti: int, lti: int)
    requires table.Valid() && table.Settled() && table.live == {} && table.tlb.handleMap == map[]
    requires table.tlb.brkUuid == 1
    ensures After(ops[..0], unorderedTypes) == State(map[], map[], 1)
    ensures Ready(table, table.types, After(ops[..0], unorderedTypes))
    ensures TotalSTI(sti, After(ops[..0], unorderedTypes)) == sti
    ensures TotalLTI(lti, After(ops[..0], unorderedTypes)) == lti
  {
    assert ops[..0] == [];
    assert table.tlb.avs == map[];
    SumsOfNothing(map[], 1);
  }
}
