/** Queries that do not answer as a scan of all atoms would (opencog/atomspace/AtomTable.cc). */
module QueryRuns {
  import opened Wrappers
  import opened Handles
  import opened Atoms
  import opened AtomGraph
  import opened TLBs
  import opened ImportanceIndexes
  import opened AtomTables
  import opened AtomRuns
  import opened ClassServers
  import opened AtomQueries

  /** Type 1, of links, is below the root type 0, and type 2, of unordered links, is below type 1. */
  ghost predicate ThreeLevels(rec: Matrix) {
    && |rec| == 3 && Reflexive(rec, 3)
    && forall a: Type, b: Type :: At(rec, a, b) <==> a <= b < 3
  }

  lemma LevelsOf(inh: Matrix, rec: Matrix)
    requires ClosureOf(inh, rec, 3)
    requires forall a: Type, b: Type :: At(inh, a, b) <==> a <= b < 3 && !(a == 0 && b == 2)
    ensures ThreeLevels(rec)
  {
    var s: set<(Type, Type)> := {(0, 0), (1, 1), (2, 2), (0, 1), (1, 2), (0, 2)};
    assert Includes(s, inh, 3);
    assert At(inh, 0, 1) && At(inh, 1, 2) && At(inh, 0, 0) && At(inh, 1, 1) && At(inh, 2, 2);
    forall a: Type, b: Type | At(rec, a, b) ensures a <= b < 3 {
      assert (a, b) in s;
    }
    assert At(rec, 0, 2);
  }

  method SmallHierarchy() returns (server: ClassServer, hier: Hierarchy)
    ensures hier == Hierarchy(server.recursiveMap, 3, 0, 1, 2) && server.nTypes == 3 && ThreeLevels(server.recursiveMap)
  {
    hide *;
    FewTypes();
    server := new ClassServer();
    NoEdges(server);
    var t := server.AddType(0, "A");
    t := server.AddType(0, "L");
    t := server.AddType(1, "U");
    server.ValidParts();
    LevelsOf(server.inheritanceMap, server.recursiveMap);
    hier := Hierarchy(server.recursiveMap, server.nTypes, 0, 1, 2);
  }

  lemma LevelsFit(hier: Hierarchy)
    requires ThreeLevels(hier.rec) && hier == Hierarchy(hier.rec, 3, 0, 1, 2)
    ensures hier.Ok(3) && hier.Unordered({2})
    ensures hier.IsA(1, 0) && hier.IsA(1, 1) && !hier.IsA(0, 1)
  {
  }

  /** A node of type 0, a link of type 1 over it, and a link over it twice. */
  const SMALL_RUN := [AddNode(0, "a"), AddLink(1, [1]), AddLink(1, [1, 1])]

  lemma AfterSmallRun()
    ensures |SMALL_RUN| < UNDEFINED_HANDLE - 1
    ensures forall i :: 0 <= i < |SMALL_RUN| ==> Allowed(After(SMALL_RUN[..i], {2}), SMALL_RUN[i], 3)
    ensures After(SMALL_RUN, {2}).g == map[1 := NodeKey(0, "a"), 2 := LinkKey(1, [1]), 3 := LinkKey(1, [1, 1])]
  {
    hide Above, AllDeepOld, DecayOf, SortHandles;
    var ops := SMALL_RUN;
    assert ops[..0] == [] && ops[..3] == ops;
    AfterNext(ops, 0, {2});
    AfterNext(ops, 1, {2});
    AfterNext(ops, 2, {2});
    var s1, s2 := After(ops[..1], {2}), After(ops[..2], {2});
    assert s1.g == map[1 := NodeKey(0, "a")] && s1.next == 2;
    assert [1] != [1, 1];
    assert s2.g == map[1 := NodeKey(0, "a"), 2 := LinkKey(1, [1])] && s2.next == 3;
  }

  /** The table after this run, with its hierarchy. */
  ghost predicate Small(table: AtomTable, server: ClassServer, hier: Hierarchy)
    reads table, table.tlb, table.tlb.atoms, table.nodeIndex, table.linkIndex, table.typeIndex, table.targetTypeIndex
    reads table.importanceIndex, server
  {
    && table.Valid() && table.Settled() && table.types == 3 && table.unorderedTypes == {2} && table.live == {1, 2, 3}
    && 1 in table.tlb.handleMap && table.tlb.handleMap[1].key == NodeKey(0, "a")
    && 2 in table.tlb.handleMap && table.tlb.handleMap[2].key == LinkKey(1, [1])
    && 3 in table.tlb.handleMap && table.tlb.handleMap[3].key == LinkKey(1, [1, 1])
    && hier == Hierarchy(server.recursiveMap, 3, 0, 1, 2) && server.nTypes == 3 && ThreeLevels(server.recursiveMap)
  }

  lemma SmallParts(m: map<Handle, Atom>, live: set<Handle>)
    requires GraphOf(m) == map[1 := NodeKey(0, "a"), 2 := LinkKey(1, [1]), 3 := LinkKey(1, [1, 1])] && live == m.Keys
    ensures live == {1, 2, 3} && 1 in m && m[1].key == NodeKey(0, "a") && 2 in m && m[2].key == LinkKey(1, [1])
    ensures 3 in m && m[3].key == LinkKey(1, [1, 1])
  {
    var g := GraphOf(m);
    assert 1 in g && m[1].key == g[1] && 2 in g && m[2].key == g[2] && 3 in g && m[3].key == g[3];
    forall h ensures h in live <==> h in {1, 2, 3} {
      assert h in live <==> h in g;
    }
  }

  method SmallTable() returns (table: AtomTable, server: ClassServer, hier: Hierarchy)
    ensures Small(table, server, hier)
  {
    hide *;
    AfterSmallRun();
    server, hier := SmallHierarchy();
    table := Run(SMALL_RUN, 3, {2});
    StateParts(table);
    SmallParts(table.tlb.handleMap, table.live);
    SmallWhole(table, server, hier);
  }

  lemma SmallWhole(table: AtomTable, server: ClassServer, hier: Hierarchy)
    requires table.Valid() && table.Settled() && table.types == 3 && table.unorderedTypes == {2}
    requires table.live == {1, 2, 3}
    requires 1 in table.tlb.handleMap && table.tlb.handleMap[1].key == NodeKey(0, "a")
    requires 2 in table.tlb.handleMap && table.tlb.handleMap[2].key == LinkKey(1, [1])
    requires 3 in table.tlb.handleMap && table.tlb.handleMap[3].key == LinkKey(1, [1, 1])
    requires hier == Hierarchy(server.recursiveMap, 3, 0, 1, 2) && server.nTypes == 3
    requires ThreeLevels(server.recursiveMap)
    ensures Small(table, server, hier)
  {
    hide table.Valid, table.Settled, ThreeLevels;
  }

  lemma SmallAsked(table: AtomTable, server: ClassServer, hier: Hierarchy, q: Query)
    requires Small(table, server, hier) && q.Ok()
    ensures Asked(table, server, hier, q) && table.live == {1, 2, 3}
    ensures 1 in table.tlb.handleMap && table.tlb.handleMap[1].key == NodeKey(0, "a")
    ensures 2 in table.tlb.handleMap && table.tlb.handleMap[2].key == LinkKey(1, [1])
    ensures 3 in table.tlb.handleMap && table.tlb.handleMap[3].key == LinkKey(1, [1, 1])
    ensures hier.IsA(1, 0) && hier.IsA(1, 1) && !hier.IsA(0, 1) && hier.atom == 0 && hier.link == 1
  {
    hide table.Valid, table.Settled;
    LevelsFit(hier);
  }

  /** All links with one target, of any type. */
  const ANY_LINK := Query([], None, None, 1, 0, true)

  lemma AnyLinkIsOpen(m: map<Handle, Atom>, hier: Hierarchy)
    requires 2 in m && m[2].key == LinkKey(1, [1]) && hier.IsA(1, 0) && !hier.IsA(0, 1) && hier.atom == 0
    requires hier.link == 1
    ensures ANY_LINK.Ok() && ANY_LINK.Open({1, 2, 3}) && OfShape(m, hier, ANY_LINK, 2)
    ensures !ANY_LINK.FastPath(hier, {1, 2, 3}) && !ANY_LINK.Targetless(hier)
    ensures !TooFewSets(m, {1, 2, 3}, hier, ANY_LINK)
  {
  }

  /** Link 2 is of the type and the arity asked for, but the query finds nothing. */
  method OpenFindsNothing() returns (table: AtomTable, server: ClassServer, hier: Hierarchy,
                                     r: Result<seq<Handle>, QueryError>)
    ensures Small(table, server, hier) && OfShape(table.tlb.handleMap, hier, ANY_LINK, 2)
    ensures r == Success([])
  {
    hide *;
    QueriesOk();
    table, server, hier := SmallTable();
    SmallAsked(table, server, hier, ANY_LINK);
    AnyLinkIsOpen(table.tlb.handleMap, hier);
    r := GetHandleSetByOutgoing(table, server, hier, ANY_LINK);
    NoMembers(r.value);
  }

  /** Links over atom 1, which is to be of type 1. */
  const TYPED_TARGET := Query([1], Some([1]), None, 1, 1, false)

  lemma TypedTargetLooksUp(m: map<Handle, Atom>, hier: Hierarchy)
    requires 1 in m && m[1].key == NodeKey(0, "a") && 2 in m && m[2].key == LinkKey(1, [1])
    requires hier.IsA(1, 1) && hier.link == 1
    ensures TYPED_TARGET.FastPath(hier, {1, 2, 3}) && LooksUp(m, {1, 2, 3}, TYPED_TARGET, {2}, 2)
    ensures !Answers(m, {1, 2, 3}, hier, TYPED_TARGET, 2)
  {
    assert !AnswersAt(m, {1, 2, 3}, hier, TYPED_TARGET, [1], 0);
  }

  /** Atom 1 is of type 0, so that link 2 does not answer; but it is what the query finds. */
  method LookupIgnoresTypes() returns (table: AtomTable, server: ClassServer, hier: Hierarchy,
                                       r: Result<seq<Handle>, QueryError>)
    ensures Small(table, server, hier) && !Answers(table.tlb.handleMap, table.live, hier, TYPED_TARGET, 2)
    ensures r == Success([2])
  {
    hide *;
    QueriesOk();
    table, server, hier := SmallTable();
    SmallAsked(table, server, hier, TYPED_TARGET);
    SmallUnordered(table, server, hier);
    TypedTargetLooksUp(table.tlb.handleMap, hier);
    r := GetHandleSetByOutgoing(table, server, hier, TYPED_TARGET);
    OneMember(r.value, 2);
  }

  /** All links of type 1 with one target. */
  const OPEN_LINK := Query([], None, None, 1, 1, false)

  lemma OpenLinkHasTooFew(m: map<Handle, Atom>, hier: Hierarchy)
    requires hier.atom == 0
    ensures !OPEN_LINK.FastPath(hier, {1, 2, 3}) && !OPEN_LINK.Targetless(hier)
    ensures TooFewSets(m, {1, 2, 3}, hier, OPEN_LINK)
  {
    assert !OPEN_LINK.ConstrainedAt(0, {1, 2, 3});
  }

  /** No set is gathered, and the code filters the first one. */
  method OpenReadsNoSet() returns (table: AtomTable, server: ClassServer, hier: Hierarchy,
                                   r: Result<seq<Handle>, QueryError>)
    ensures Small(table, server, hier) && r == Failure(NoSuchSet)
  {
    hide *;
    QueriesOk();
    table, server, hier := SmallTable();
    SmallAsked(table, server, hier, OPEN_LINK);
    OpenLinkHasTooFew(table.tlb.handleMap, hier);
    r := GetHandleSetByOutgoing(table, server, hier, OPEN_LINK);
    assert r.Failure? && r.error.NoSuchSet?;
  }

  /** Links with atom 1 at both positions, of type 1 or below. */
  const SAME_TARGETS := Query([1, 1], None, None, 2, 1, true)

  lemma SameTargetsAnswer(m: map<Handle, Atom>, hier: Hierarchy)
    requires 1 in m && m[1].key == NodeKey(0, "a") && 2 in m && m[2].key == LinkKey(1, [1])
    requires 3 in m && m[3].key == LinkKey(1, [1, 1]) && hier.IsA(1, 1)
    ensures !SAME_TARGETS.FastPath(hier, {1, 2, 3}) && !SAME_TARGETS.Targetless(hier)
    ensures !SAME_TARGETS.Open({1, 2, 3}) && !TooFewSets(m, {1, 2, 3}, hier, SAME_TARGETS)
    ensures forall l :: Answers(m, {1, 2, 3}, hier, SAME_TARGETS, l) <==> l == 3
    ensures forall n :: LeastGathered(m, {1, 2, 3}, hier, SAME_TARGETS, 3, n) ==> n == 2
  {
    var q := SAME_TARGETS;
    assert q.ConstrainedAt(0, {1, 2, 3}) && q.ConstrainedAt(1, {1, 2, 3});
    assert [1, 1][0] == 1 && [1, 1][1] == 1;
    assert Multiplicity(m, {1, 2, 3}, hier, q, 0, 3) == 2 == Multiplicity(m, {1, 2, 3}, hier, q, 1, 3);
  }

  /** Link 3 is found once for each time that it names atom 1. */
  method ListedTwice() returns (table: AtomTable, server: ClassServer, hier: Hierarchy,
                                r: Result<seq<Handle>, QueryError>)
    ensures Small(table, server, hier) && r == Success([3, 3])
  {
    hide *;
    QueriesOk();
    table, server, hier := SmallTable();
    SmallAsked(table, server, hier, SAME_TARGETS);
    SameTargetsAnswer(table.tlb.handleMap, hier);
    r := GetHandleSetByOutgoing(table, server, hier, SAME_TARGETS);
    TwiceListed(table.tlb.handleMap, {1, 2, 3}, hier, SAME_TARGETS, r.value);
  }

  lemma TwiceListed(m: map<Handle, Atom>, live: set<Handle>, hier: Hierarchy, q: Query, r: seq<Handle>)
    requires ListedInOrder(m, live, hier, q, r) && 3 in m && forall l :: l in r <==> l == 3
    requires forall n :: LeastGathered(m, live, hier, q, 3, n) ==> n == 2
    ensures r == [3, 3]
  {
    assert 3 in r;
    assert Count(r, 3) == 2;
    forall k | 0 <= k < |r| ensures r[k] == 3 {
      assert r[k] in r;
    }
    AllThrees(r);
  }

  lemma {:induction false} AllThrees(r: seq<Handle>)
    requires forall k :: 0 <= k < |r| ==> r[k] == 3
    ensures Count(r, 3) == |r|
  {
    if r != [] {
      assert r == [r[0]] + r[1..];
      AllThrees(r[1..]);
    }
  }

  lemma NoMembers(s: seq<Handle>)
    ensures (forall l :: l !in s) ==> s == []
  {
    if s != [] {
      assert s[0] in s;
    }
  }

  lemma OneMember(s: seq<Handle>, h: Handle)
    ensures |s| <= 1 && h in s ==> s == [h]
  {
  }

  lemma QueriesOk()
    ensures ANY_LINK.Ok() && TYPED_TARGET.Ok() && OPEN_LINK.Ok() && SAME_TARGETS.Ok()
  {
  }

  lemma SmallUnordered(table: AtomTable, server: ClassServer, hier: Hierarchy)
    requires Small(table, server, hier)
    ensures table.unorderedTypes == {2}
  {
    hide table.Valid, table.Settled;
  }
}
