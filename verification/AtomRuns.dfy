/** Whole runs of the table of atoms (opencog/atomspace/AtomTable.cc). */
module AtomRuns {
  import opened Wrappers
  import opened Handles
  import opened Atoms
  import opened AtomGraph
  import opened TLBs
  import opened ImportanceIndexes
  import opened AtomTableValues
  import opened AtomTables

  /** The table without its indexes: the atoms by handle, their attention values, and the next handle. */
  datatype State = State(g: Graph, avs: map<Handle, AttentionValue>, next: Handle)

  datatype Operation =
    | AddNode(atomType: nat, name: string)
    | AddLink(atomType: nat, handles: seq<Handle>)
    | RemoveAtom(h: Handle, recursive: bool)
    | SetValue(h: Handle, av: AttentionValue)
    | Decay(minSTI: Short)

  /** What the operations ask of their callers: known types, and handles of atoms in the table. */
  ghost predicate Allowed(s: State, op: Operation, types: nat) {
    match op
    case AddNode(t, name) => t < types
    case AddLink(t, handles) => t < types && forall h :: h in handles ==> h in s.g
    case SetValue(h, av) => h in s.g
    case RemoveAtom(h, recursive) => true
    case Decay(minSTI) => true
  }

  ghost function Added(s: State, k: Key): State {
    if exists h :: h in s.g && s.g[h] == k then s
    else State(s.g[s.next := k], s.avs[s.next := DEFAULT_AV], s.next + 1)
  }

  ghost function Removed(s: State, gone: set<Handle>): State {
    State(s.g - gone, s.avs - gone, s.next)
  }

  /** Without `recursive` an atom is removed alone, and only if nothing names it. */
  ghost function Applied(s: State, op: Operation, unorderedTypes: set<nat>): State {
    match op
    case AddNode(t, name) => Added(s, NodeKey(t, name))
    case AddLink(t, handles) => Added(s, NewLink(t, handles, unorderedTypes))
    case SetValue(h, av) => s.(avs := s.avs[h := av])
    case RemoveAtom(h, recursive) =>
      if h !in s.g then s
      else if recursive then Removed(s, Above(s.g, s.g.Keys, h))
      else if forall l :: l in s.g ==> h !in Outgoing(s.g[l]) then Removed(s, {h})
      else s
    case Decay(minSTI) =>
      var avs := DecayOf(s.avs, s.g.Keys);
      Removed(s.(avs := avs), AllDeepOld(s.g, s.g.Keys, avs, minSTI))
  }

  ghost function After(ops: seq<Operation>, unorderedTypes: set<nat>): State {
    if ops == [] then State(map[], map[], 1)
    else Applied(After(ops[..|ops| - 1], unorderedTypes), ops[|ops| - 1], unorderedTypes)
  }

  lemma AfterNext(ops: seq<Operation>, i: nat, unorderedTypes: set<nat>)
    requires i < |ops|
    ensures After(ops[..i + 1], unorderedTypes) == Applied(After(ops[..i], unorderedTypes), ops[i], unorderedTypes)
  {
    assert ops[..i + 1][..i] == ops[..i];
  }

  ghost function StateOf(table: AtomTable): State
    reads table.tlb
  {
    State(GraphOf(table.tlb.handleMap), table.tlb.avs, table.tlb.brkUuid)
  }

  // ------------------------------------------------------- each operation does what the model says

  lemma AddedSays(m: map<Handle, Atom>, avs: map<Handle, AttentionValue>, next: Handle, atom: Atom)
    requires next !in m
    ensures HasKey(m, m.Keys, atom.key) ==>
      Added(State(GraphOf(m), avs, next), atom.key) == State(GraphOf(m), avs, next)
    ensures !HasKey(m, m.Keys, atom.key) ==>
      Added(State(GraphOf(m), avs, next), atom.key) ==
        State(GraphOf(m[next := atom]), avs[next := DEFAULT_AV], next + 1)
  {
    var g := GraphOf(m);
    if HasKey(m, m.Keys, atom.key) {
      var h :| h in m && m[h].key == atom.key;
      assert h in g && g[h] == atom.key;
    } else {
      assert !exists h :: h in g && g[h] == atom.key;
      assert GraphOf(m[next := atom]) == g[next := atom.key];
    }
  }

  ghost predicate IsUnder(s: State, k: Key, h: Handle) {
    h in s.g && s.g[h] == k
  }

  lemma AddedUnder(m: map<Handle, Atom>, avs: map<Handle, AttentionValue>, next: Handle, atom: Atom, h: Handle)
    requires next !in m
    requires if HasKey(m, m.Keys, atom.key) then Found(m, m.Keys, atom.key, h) else h == next
    ensures IsUnder(Added(State(GraphOf(m), avs, next), atom.key), atom.key, h)
  {
    AddedSays(m, avs, next, atom);
  }

  lemma RemovedSays(m: map<Handle, Atom>, gone: set<Handle>)
    ensures GraphOf(m - gone) == GraphOf(m) - gone && GraphOf(m).Keys == m.Keys
  {
  }

  /** An atom has an empty incoming list if no link names it. */
  lemma NamedByNoLink(g: Graph, inc: map<Handle, seq<Handle>>, h: Handle)
    requires IncomingOk(g, g.Keys, inc) && h in g
    ensures inc[h] == [] <==> forall l :: l in g ==> h !in Outgoing(g[l])
  {
    InIncoming(g, g.Keys, inc, h);
    assert inc[h] != [] ==> inc[h][0] in inc[h];
  }

  // The whole of the table may change.
  ghost predicate Ready(table: AtomTable, types: nat, s: State)
    reads table, table.tlb, table.tlb.atoms, table.nodeIndex, table.linkIndex, table.typeIndex, table.targetTypeIndex
    reads table.importanceIndex
  {
    table.Valid() && table.Settled() && table.types == types && StateOf(table) == s
  }

  /** Everything the new atom names is in the table. */
  ghost predicate Grounded(s: State, k: Key) {
    forall t :: t in Outgoing(k) ==> t in s.g
  }

  /** Adds an atom. A link that names something else fails, and leaves the table out of step. */
  method PerformAdd(table: AtomTable, atom: Atom, ghost s: State) returns (r: Result<Handle, AddError>)
    requires Ready(table, table.types, s) && s.next < UNDEFINED_HANDLE
    requires atom.Unused() && !atom.inTable && atom !in table.tlb.atoms && atom.key.atomType < table.types
    requires Normal(atom.key, table.unorderedTypes)
    modifies table, table.tlb, table.tlb.atoms, table.nodeIndex, table.linkIndex, table.typeIndex, table.targetTypeIndex
    modifies table.importanceIndex, atom
    ensures table.tlb.atoms <= old(table.tlb.atoms) + {atom}
    ensures Grounded(s, atom.key) ==>
      && Ready(table, table.types, Added(s, atom.key))
      && r.Success? && IsUnder(Added(s, atom.key), atom.key, r.value)
    ensures !Grounded(s, atom.key) ==> r == Failure(InvalidOutgoing) && !table.Valid()
  {
    hide *;
    ghost var m, avs, next := table.tlb.handleMap, table.tlb.avs, table.tlb.brkUuid;
    ReadyParts(table, table.types, s);
    AddedSays(m, avs, next, atom);
    AllowedOutcome(s, m, table.live, table.types, atom);
    r := table.Add(atom);
    if Grounded(s, atom.key) {
      ReadyAgain(table, table.types);
      AddedUnder(m, avs, next, atom, r.value);
    }
  }

  lemma ReadyParts(table: AtomTable, types: nat, s: State)
    requires Ready(table, types, s)
    ensures table.Valid() && table.Settled() && table.live == table.tlb.handleMap.Keys && table.types == types
    ensures s == State(GraphOf(table.tlb.handleMap), table.tlb.avs, table.tlb.brkUuid)
    ensures table.tlb.brkUuid !in table.tlb.handleMap
    ensures IncomingOk(GraphOf(table.tlb.handleMap), table.live, table.tlb.inc)
    ensures LinksPointBack(GraphOf(table.tlb.handleMap)) && Closed(GraphOf(table.tlb.handleMap), table.live)
    ensures NormalLinks(table.tlb.handleMap, table.unorderedTypes)
    ensures forall h :: h in s.g <==> h in table.tlb.handleMap
  {
    hide IncomingMirrored, AttentionMirrored, MarkedMirrored, DecayedMirrored;
    table.NextHandle();
  }

  lemma ReadyAgain(table: AtomTable, types: nat)
    requires table.Valid() && table.Settled() && table.types == types
    ensures Ready(table, types, State(GraphOf(table.tlb.handleMap), table.tlb.avs, table.tlb.brkUuid))
  {
  }

  lemma AllowedOutcome(s: State, m: map<Handle, Atom>, live: set<Handle>, types: nat, atom: Atom)
    requires !atom.inTable && atom.key.atomType < types
    requires s.g == GraphOf(m) && live == m.Keys && Closed(s.g, live)
    ensures Grounded(s, atom.key) ==>
      Outcome(m, live, types, atom) == if HasKey(m, live, atom.key) then Duplicate else New
    ensures !Grounded(s, atom.key) ==> Outcome(m, live, types, atom) == Dangling
  {
    forall h | h in live && h in m && m[h].key == atom.key ensures Grounded(s, atom.key) {
      assert s.g[h] == atom.key;
    }
  }

  method PerformRemove(table: AtomTable, h: Handle, recursive: bool, ghost s: State)
    requires Ready(table, table.types, s)
    modifies table, table.tlb, table.tlb.atoms, table.nodeIndex, table.linkIndex, table.typeIndex, table.targetTypeIndex
    modifies table.importanceIndex
    ensures Ready(table, table.types, Applied(s, RemoveAtom(h, recursive), table.unorderedTypes))
    ensures table.tlb.atoms == old(table.tlb.atoms)
  {
    hide *;
    ghost var m, avs, live, next := table.tlb.handleMap, table.tlb.avs, table.live, table.tlb.brkUuid;
    ReadyParts(table, table.types, s);
    RemoveSays(s, table.tlb.inc, live, h, recursive, table.unorderedTypes);
    table.RemovableMeans(h, recursive);
    var ok := table.Remove(h, recursive);
    RemovedState(m, table.tlb.handleMap, avs, table.tlb.avs, live, table.live,
                 if ok then Above(GraphOf(m), live, h) else {}, next);
    ReadyAgain(table, table.types);
  }

  lemma RemoveSays(s: State, inc: map<Handle, seq<Handle>>, live: set<Handle>, h: Handle, recursive: bool,
                   unorderedTypes: set<nat>)
    requires IncomingOk(s.g, live, inc) && (forall x :: x in live <==> x in s.g)
    requires LinksPointBack(s.g) && Closed(s.g, live)
    ensures Applied(s, RemoveAtom(h, recursive), unorderedTypes) ==
      Removed(s, if h in live && (recursive || (h in inc && inc[h] == [])) then Above(s.g, live, h) else {})
  {
    hide Above, IncomingOk, LinksPointBack, Closed;
    assert live == s.g.Keys;
    if h in s.g {
      NamedByNoLink(s.g, inc, h);
      IncomingKeys(s.g, live, inc);
      if inc[h] == [] {
        AboveAlone(s.g, live, h);
      }
    }
    assert s.g - {} == s.g && s.avs - {} == s.avs;
  }

  /** The graph after some atoms have been taken away. */
  lemma RemovedState(m: map<Handle, Atom>, m': map<Handle, Atom>, avs: map<Handle, AttentionValue>,
                     avs': map<Handle, AttentionValue>, live: set<Handle>, live': set<Handle>, gone: set<Handle>,
                     next: Handle)
    requires TookAway(m, m', avs, avs', live, live', gone)
    ensures State(GraphOf(m'), avs', next) == Removed(State(GraphOf(m), avs, next), gone)
  {
    RemovedSays(m, gone);
  }

  method PerformDecay(table: AtomTable, minSTI: Short, ghost s: State)
    requires Ready(table, table.types, s)
    modifies table, table.tlb, table.tlb.atoms, table.nodeIndex, table.linkIndex, table.typeIndex, table.targetTypeIndex
    modifies table.importanceIndex
    ensures Ready(table, table.types, Applied(s, Decay(minSTI), table.unorderedTypes))
    ensures table.tlb.atoms == old(table.tlb.atoms)
  {
    hide *;
    ghost var m, live, next := table.tlb.handleMap, table.live, table.tlb.brkUuid;
    ghost var avs := DecayOf(table.tlb.avs, live);
    ReadyParts(table, table.types, s);
    DecaySays(s, minSTI, live, table.unorderedTypes);
    table.DecayShortTermImportance(minSTI);
    RemovedState(m, table.tlb.handleMap, avs, table.tlb.avs, live, table.live,
                 AllDeepOld(GraphOf(m), live, avs, minSTI), next);
    ReadyAgain(table, table.types);
  }

  /** What a decay round is on the plain model, in the fields. */
  lemma DecayInFields(s: State, minSTI: Short, unorderedTypes: set<nat>)
    requires Closed(s.g, s.g.Keys)
    ensures var s' := Applied(s, Decay(minSTI), unorderedTypes);
            var avs := DecayOf(s.avs, s.g.Keys);
      && LostOneUnit(s.avs, s.g.Keys, avs) && s'.next == s.next
      && s'.g.Keys <= s.g.Keys
      && LetGo(s.g, s.g.Keys, avs, minSTI, s.g.Keys - s'.g.Keys)
      && (forall h :: h in s'.g ==> s'.g[h] == s.g[h])
      && (forall h :: h in s'.avs ==> s'.avs[h] == avs[h])
      && forall x, h :: x in s.g && x in s.avs && s.avs[x].lti >= 1 && Reaches(s.g, x, h) ==> h in s'.g
  {
    hide Reaches, Closed, LetGo, LostOneUnit, AllDeepOld;
    ForgottenGo(s.g, s.g.Keys, s.avs, minSTI);
  }

  lemma DecaySays(s: State, minSTI: Short, live: set<Handle>, unorderedTypes: set<nat>)
    requires forall h :: h in live <==> h in s.g
    ensures Applied(s, Decay(minSTI), unorderedTypes) ==
      Removed(State(s.g, DecayOf(s.avs, live), s.next), AllDeepOld(s.g, live, DecayOf(s.avs, live), minSTI))
  {
    hide AllDeepOld, DecayOf;
    assert live == s.g.Keys;
  }

  method Perform(table: AtomTable, op: Operation, ghost s: State)
    requires Ready(table, table.types, s) && s.next < UNDEFINED_HANDLE && Allowed(s, op, table.types)
    modifies table, table.tlb, table.tlb.atoms, table.nodeIndex, table.linkIndex, table.typeIndex, table.targetTypeIndex
    modifies table.importanceIndex
    ensures Ready(table, table.types, Applied(s, op, table.unorderedTypes))
    ensures fresh(table.tlb.atoms - old(table.tlb.atoms))
  {
    hide *;
    OperationMeans(s, op, table.types, table.unorderedTypes);
    if op.AddNode? {
      var atom := new Atom.Node(op.atomType, op.name);
      var r := PerformAdd(table, atom, s);
    } else if op.AddLink? {
      TargetsIn(s, op.atomType, op.handles, table.unorderedTypes);
      var atom := new Atom.Link(op.atomType, op.handles, table.unorderedTypes);
      var r := PerformAdd(table, atom, s);
    } else if op.RemoveAtom? {
      PerformRemove(table, op.h, op.recursive, s);
    } else if op.Decay? {
      PerformDecay(table, op.minSTI, s);
    } else {
      ReadyParts(table, table.types, s);
      table.SetAttentionValue(op.h, op.av);
      ReadyAgain(table, table.types);
    }
  }

  lemma OperationMeans(s: State, op: Operation, types: nat, unorderedTypes: set<nat>)
    requires Allowed(s, op, types)
    ensures op.AddNode? ==>
      op.atomType < types && Applied(s, op, unorderedTypes) == Added(s, NodeKey(op.atomType, op.name))
      && Grounded(s, NodeKey(op.atomType, op.name)) && Normal(NodeKey(op.atomType, op.name), unorderedTypes)
    ensures op.AddLink? ==>
      op.atomType < types && (forall h :: h in op.handles ==> h in s.g)
      && Applied(s, op, unorderedTypes) == Added(s, NewLink(op.atomType, op.handles, unorderedTypes))
    ensures op.RemoveAtom? ==> op == RemoveAtom(op.h, op.recursive)
    ensures op.Decay? ==> op == Decay(op.minSTI)
    ensures op.SetValue? ==> op.h in s.g && Applied(s, op, unorderedTypes) == State(s.g, s.avs[op.h := op.av], s.next)
  {
    hide Added, NewLink;
  }

  lemma TargetsIn(s: State, t: nat, handles: seq<Handle>, unorderedTypes: set<nat>)
    ensures var k := NewLink(t, handles, unorderedTypes);
            k.LinkKey? && k.atomType == t && (Grounded(s, k) <==> forall h :: h in handles ==> h in s.g)
  {
    NewLinkNormal(t, handles, unorderedTypes);
    var outgoing := NewLink(t, handles, unorderedTypes).outgoing;
    forall h ensures h in outgoing <==> h in handles {
      assert h in multiset(outgoing) <==> h in multiset(handles);
    }
  }

  lemma NextGrows(ops: seq<Operation>, i: nat, unorderedTypes: set<nat>)
    requires i < |ops|
    ensures After(ops[..i + 1], unorderedTypes).next <= After(ops[..i], unorderedTypes).next + 1
  {
    hide Above, AllDeepOld, DecayOf, NewLink;
    AfterNext(ops, i, unorderedTypes);
  }

  /** Any run from an empty table leaves the table and all its indexes in agreement with the plain
      model. */
  method Run(ops: seq<Operation>, types: nat, unorderedTypes: set<nat>) returns (table: AtomTable)
    requires |ops| < UNDEFINED_HANDLE - 1
    requires forall i :: 0 <= i < |ops| ==> Allowed(After(ops[..i], unorderedTypes), ops[i], types)
    ensures fresh(table) && table.Valid() && table.Settled() && table.types == types
    ensures table.unorderedTypes == unorderedTypes
    ensures StateOf(table) == After(ops, unorderedTypes)
  {
    hide *;
    table := new AtomTable(types, unorderedTypes);
    NothingYet(table, ops, unorderedTypes);
    for i := 0 to |ops|
      invariant fresh(table) && fresh(table.tlb) && fresh(table.tlb.atoms) && fresh(table.nodeIndex)
      invariant fresh(table.linkIndex)
      invariant fresh(table.typeIndex) && fresh(table.targetTypeIndex) && fresh(table.importanceIndex)
      invariant table.types == types && table.unorderedTypes == unorderedTypes
      invariant Ready(table, types, After(ops[..i], unorderedTypes)) && After(ops[..i], unorderedTypes).next <= i + 1
    {
      AfterNext(ops, i, unorderedTypes);
      NextGrows(ops, i, unorderedTypes);
      Perform(table, ops[i], After(ops[..i], unorderedTypes));
    }
    assert ops[..|ops|] == ops;
    ReadyParts(table, types, After(ops, unorderedTypes));
    RunEnds(table, types, After(ops, unorderedTypes));
  }

  lemma NothingYet(table: AtomTable, ops: seq<Operation>, unorderedTypes: set<nat>)
    requires table.Valid() && table.Settled() && table.live == {} && table.tlb.handleMap == map[]
    requires table.tlb.brkUuid == 1
    ensures Ready(table, table.types, After(ops[..0], unorderedTypes)) && After(ops[..0], unorderedTypes).next <= 1
  {
    assert ops[..0] == [];
    assert table.tlb.avs == map[];
  }

  lemma RunEnds(table: AtomTable, types: nat, s: State)
    requires Ready(table, types, s)
    ensures StateOf(table) == s
  {
  }

  // ------------------------------------------------------- a lookup that misses

  /** Two nodes, and a link of the unordered type 1 made with handles 2 and 1. */
  const UNORDERED_RUN := [AddNode(0, "a"), AddNode(0, "b"), AddLink(1, [2, 1])]

  lemma AfterUnorderedRun()
    ensures |UNORDERED_RUN| < UNDEFINED_HANDLE - 1
    ensures forall i :: 0 <= i < |UNORDERED_RUN| ==> Allowed(After(UNORDERED_RUN[..i], {1}), UNORDERED_RUN[i], 2)
    ensures After(UNORDERED_RUN, {1}).g == map[1 := NodeKey(0, "a"), 2 := NodeKey(0, "b"), 3 := LinkKey(1, [1, 2])]
  {
    hide Above, AllDeepOld, DecayOf, SortHandles;
    var ops := UNORDERED_RUN;
    assert ops[..0] == [] && ops[..3] == ops;
    AfterNext(ops, 0, {1});
    AfterNext(ops, 1, {1});
    AfterNext(ops, 2, {1});
    assert SortHandles([2, 1]) == [1, 2] by {
      assert multiset([2, 1]) == multiset([1, 2]);
      SortHandlesOk([2, 1]);
      SortedUnique(SortHandles([2, 1]), [1, 2]);
    }
    var s1, s2 := After(ops[..1], {1}), After(ops[..2], {1});
    assert s1.g == map[1 := NodeKey(0, "a")] && s1.next == 2;
    assert s2.g == map[1 := NodeKey(0, "a"), 2 := NodeKey(0, "b")] && s2.next == 3;
  }

  lemma FoundOnlySorted(m: map<Handle, Atom>, live: set<Handle>)
    requires GraphOf(m) == map[1 := NodeKey(0, "a"), 2 := NodeKey(0, "b"), 3 := LinkKey(1, [1, 2])] && live == m.Keys
    ensures 3 in live && 3 in m && IsLinkOf(m[3].key, 1, [2, 1], {1})
    ensures forall h :: Found(m, live, LinkKey(1, [2, 1]), h) ==> h == UNDEFINED_HANDLE
    ensures forall h :: Found(m, live, LinkKey(1, [1, 2]), h) ==> h == 3
  {
    var g := GraphOf(m);
    assert 3 in g && m[3].key == g[3];
    assert [1, 2][0] != [2, 1][0];
    forall h | h in m ensures m[h].key != LinkKey(1, [2, 1]) {
      assert m[h].key == g[h];
    }
    assert HasKey(m, live, LinkKey(1, [1, 2]));
  }

  lemma StateParts(table: AtomTable)
    requires table.Settled()
    ensures StateOf(table).g == GraphOf(table.tlb.handleMap) && table.live == table.tlb.handleMap.Keys
  {
  }

  /** The link over atoms 1 and 2 is in the table, but it is not found under the handles it was made
      with, only under the sorted ones. */
  method UnsortedLookup() returns (table: AtomTable, missed: Handle, found: Handle)
    ensures table.Valid() && table.unorderedTypes == {1} && 3 in table.live && 3 in table.tlb.handleMap
    ensures IsLinkOf(table.tlb.handleMap[3].key, 1, [2, 1], {1})
    ensures missed == UNDEFINED_HANDLE && found == 3
  {
    hide *;
    AfterUnorderedRun();
    table := Run(UNORDERED_RUN, 2, {1});
    StateParts(table);
    FoundOnlySorted(table.tlb.handleMap, table.live);
    var r := table.GetLink(1, [2, 1]);
    missed := r.value;
    r := table.GetLink(1, [1, 2]);
    found := r.value;
  }
}
