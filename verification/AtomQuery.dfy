/** Queries by outgoing set (opencog/atomspace/AtomTable.cc). */
module AtomQueries {
  import opened Wrappers
  import opened Handles
  import opened Atoms
  import opened AtomGraph
  import opened TLBs
  import opened AtomIndexes
  import opened ImportanceIndexes
  import opened AtomTableValues
  import opened AtomTables
  import opened ClassServers
  import opened HandleEntries
  import opened HandleIntersections
  import opened TypeIterators

  /** The hierarchy of types as a value, with the types the queries name. */
  datatype Hierarchy = Hierarchy(rec: Matrix, n: nat, atom: Type, link: Type, unorderedLink: Type) {
    predicate IsA(t: Type, parent: Type) {
      t < n && parent < n && At(rec, parent, t)
    }

    /** Of the wanted type, or of a subtype of it. */
    predicate Fits(t: Type, wanted: Type, sub: bool) {
      if sub then IsA(t, wanted) else t == wanted
    }

    /** These are the unordered types: those below the type of unordered links. */
    ghost predicate Unordered(types: set<nat>) {
      forall t: Type :: t in types <==> IsA(t, unorderedLink)
    }

    ghost predicate Ok(types: nat) {
      && n == types && Reflexive(rec, n) && |rec| == n && atom < n && link < n && unorderedLink < n
      && forall t: Type :: t < n ==> IsA(t, atom)
    }
  }

  /** What is asked for: a link type, and at every position a handle, a type, or both. */
  datatype Query = Query(handles: seq<Handle>, types: Option<seq<Type>>, subclasses: Option<seq<bool>>, arity: nat,
                         linkType: Type, subclass: bool)
  {
    ghost predicate Ok() {
      && (handles == [] || |handles| == arity)
      && (types.Some? ==> |types.value| == arity) && (subclasses.Some? ==> |subclasses.value| == arity)
    }

    predicate HandleAt(i: nat, valid: set<Handle>) {
      handles != [] && i < |handles| && handles[i] in valid
    }

    predicate TypeAt(i: nat) {
      types.Some? && i < |types.value| && types.value[i] != NOTYPE
    }

    function SubAt(i: nat): bool {
      subclasses.Some? && i < |subclasses.value| && subclasses.value[i]
    }

    ghost predicate ConstrainedAt(i: nat, valid: set<Handle>) {
      HandleAt(i, valid) || TypeAt(i)
    }

    /** Every atom is of the type asked for, so that nothing is filtered by it. */
    predicate AnyType(hier: Hierarchy) {
      linkType == hier.atom && subclass
    }

    /** No position is constrained. */
    ghost predicate Open(valid: set<Handle>) {
      forall i :: 0 <= i < arity ==> !ConstrainedAt(i, valid)
    }

    /** Links without targets are asked for. */
    predicate Targetless(hier: Hierarchy) {
      hier.IsA(linkType, hier.link) && arity == 0
    }

    predicate FastPath(hier: Hierarchy, valid: set<Handle>)
      requires handles == [] || |handles| == arity
    {
      && hier.IsA(linkType, hier.link) && (arity == 0 || handles != []) && !subclass
      && forall i :: 0 <= i < arity ==> handles[i] in valid
    }
  }

  /** A link answers a query: by its type, its arity, and position by position. */
  ghost predicate Answers(m: map<Handle, Atom>, live: set<Handle>, hier: Hierarchy, q: Query, l: Handle) {
    && l in live && l in m && m[l].key.LinkKey?
    && hier.Fits(m[l].key.atomType, q.linkType, q.subclass)
    && |m[l].key.outgoing| == q.arity
    && forall i :: 0 <= i < q.arity ==> AnswersAt(m, live, hier, q, m[l].key.outgoing, i)
  }

  ghost predicate AnswersAt(m: map<Handle, Atom>, live: set<Handle>, hier: Hierarchy, q: Query, outgoing: seq<Handle>,
                            i: nat)
    requires i < |outgoing|
  {
    && (q.HandleAt(i, live) ==> outgoing[i] == q.handles[i])
    && (q.TypeAt(i) ==> outgoing[i] in m && hier.Fits(m[outgoing[i]].key.atomType, q.types.value[i], q.SubAt(i)))
  }

  // ------------------------------------------------------- by looking up the link itself

  /** The types asked for are those of the atoms asked for. */
  ghost predicate TypesAgree(m: map<Handle, Atom>, hier: Hierarchy, q: Query) {
    forall i :: 0 <= i < q.arity && q.TypeAt(i) && i < |q.handles| ==>
      q.handles[i] in m && hier.Fits(m[q.handles[i]].key.atomType, q.types.value[i], q.SubAt(i))
  }

  /** What the lookup is to find: the link of the type over the handles, in any order for an unordered
      type. */
  ghost predicate LooksUp(m: map<Handle, Atom>, live: set<Handle>, q: Query, unorderedTypes: set<nat>, l: Handle) {
    l in live && l in m && IsLinkOf(m[l].key, q.linkType, q.handles, unorderedTypes)
  }

  /** The lookup gives what the scan gives exactly if there is no such link, or the handles are in normal
      form and the types asked for agree with them: the lookup does not look at the types, and for an
      unordered type neither at the positions. */
  lemma LookupIsScan(m: map<Handle, Atom>, live: set<Handle>, hier: Hierarchy, q: Query, unorderedTypes: set<nat>)
    requires q.Ok() && q.FastPath(hier, live) && Closed(GraphOf(m), live) && NormalLinks(m, unorderedTypes)
    ensures (forall l :: l in live ==> (LooksUp(m, live, q, unorderedTypes, l) <==> Answers(m, live, hier, q, l)))
      <==> (!HasLink(m, live, q.linkType, q.handles, unorderedTypes)
            || (Normal(LinkKey(q.linkType, q.handles), unorderedTypes) && TypesAgree(m, hier, q)))
  {
    LivePresent(m, live);
    forall l | l in live && Answers(m, live, hier, q, l)
      ensures m[l].key == LinkKey(q.linkType, q.handles) && LooksUp(m, live, q, unorderedTypes, l)
    {
      AnswersByHandles(m, live, hier, q, l);
    }
    forall l | l in live && LooksUp(m, live, q, unorderedTypes, l)
      ensures Answers(m, live, hier, q, l)
        <==> Normal(LinkKey(q.linkType, q.handles), unorderedTypes) && TypesAgree(m, hier, q)
    {
      assert Normal(m[l].key, unorderedTypes);
      MadeOf(m[l].key, q.linkType, q.handles, unorderedTypes);
      NewLinkNormal(q.linkType, q.handles, unorderedTypes);
      if m[l].key == LinkKey(q.linkType, q.handles) {
        AnswersIfTypesAgree(m, live, hier, q, l);
      }
    }
  }

  lemma AnswersByHandles(m: map<Handle, Atom>, live: set<Handle>, hier: Hierarchy, q: Query, l: Handle)
    requires q.Ok() && q.FastPath(hier, live) && Answers(m, live, hier, q, l)
    ensures m[l].key == LinkKey(q.linkType, q.handles)
  {
    var outgoing := m[l].key.outgoing;
    forall i | 0 <= i < q.arity ensures outgoing[i] == q.handles[i] {
      assert AnswersAt(m, live, hier, q, outgoing, i);
    }
    assert outgoing == q.handles;
  }

  lemma AnswersIfTypesAgree(m: map<Handle, Atom>, live: set<Handle>, hier: Hierarchy, q: Query, l: Handle)
    requires q.Ok() && q.FastPath(hier, live) && l in live && l in m && m[l].key == LinkKey(q.linkType, q.handles)
    ensures Answers(m, live, hier, q, l) <==> TypesAgree(m, hier, q)
  {
    if TypesAgree(m, hier, q) {
      assert forall i :: 0 <= i < q.arity ==> AnswersAt(m, live, hier, q, m[l].key.outgoing, i);
    } else if Answers(m, live, hier, q, l) {
      forall i | 0 <= i < q.arity && q.TypeAt(i) && i < |q.handles|
        ensures q.handles[i] in m && hier.Fits(m[q.handles[i]].key.atomType, q.types.value[i], q.SubAt(i))
      {
        assert AnswersAt(m, live, hier, q, m[l].key.outgoing, i);
      }
    }
  }

  /** The link with a given content, by way of the set of atoms. */
  method Lookup(table: AtomTable, key: Key) returns (result: seq<Handle>)
    requires table.Valid() && table.Settled()
    ensures forall l :: l in result <==>
      l in table.live && l in table.tlb.handleMap && table.tlb.handleMap[l].key == key
    ensures |result| <= 1
  {
    hide *;
    table.ValidParts();
    SetOfAtoms(table);
    Stored(table.atomSet, table.tlb.handleMap, table.live, table.tlb.atoms, table.tlb.brkUuid, key);
    if key !in table.atomSet {
      return [];
    }
    var h := table.atomSet[key].handle;
    table.ValidHandle(h);
    return if table.tlb.IsValidHandle(h) then [h] else [];
  }

  lemma SetOfAtoms(table: AtomTable)
    requires table.Valid()
    ensures AtomSetOk(table.atomSet, table.tlb.handleMap, table.live)
    ensures Numbered(table.tlb.handleMap, table.tlb.atoms, table.tlb.brkUuid)
  {
  }

  /** The set finds the one live atom of the content, which has its handle. */
  lemma Stored(atomSet: map<Key, Atom>, m: map<Handle, Atom>, live: set<Handle>, atoms: set<Atom>, brk: nat, key: Key)
    requires AtomSetOk(atomSet, m, live) && Numbered(m, atoms, brk)
    ensures forall l :: l in live && l in m && m[l].key == key ==> key in atomSet && atomSet[key].handle == l
    ensures key in atomSet ==> var h := atomSet[key].handle; h in live && h in m && m[h].key == key
  {
    if key in atomSet {
      assert Holds(atomSet, m, live, key);
    }
  }

  // ------------------------------------------------------- by filtering and intersecting

  /** The types asked for that a link has among its targets. */
  ghost function TargetTypes(m: map<Handle, Atom>, hier: Hierarchy, outgoing: seq<Handle>, t: Type,
                             sub: bool): set<Type> {
    set j | 0 <= j < |outgoing| && outgoing[j] in m && hier.Fits(m[outgoing[j]].key.atomType, t, sub) ::
      m[outgoing[j]].key.atomType
  }

  /** How often a link is gathered for position `i`: as often as it holds the handle, wherever that is, or
      once for every type asked for among its targets. */
  ghost function Multiplicity(m: map<Handle, Atom>, live: set<Handle>, hier: Hierarchy, q: Query, i: nat,
                              l: Handle): nat
    requires l in m
  {
    if q.HandleAt(i, live) then Count(Outgoing(m[l].key), q.handles[i])
    else if q.TypeAt(i) then |TargetTypes(m, hier, Outgoing(m[l].key), q.types.value[i], q.SubAt(i))|
    else 0
  }

  /** The candidates are listed so often. */
  ghost predicate CountedFor(m: map<Handle, Atom>, live: set<Handle>, hier: Hierarchy, q: Query, i: nat,
                             s: seq<Handle>) {
    forall l ::
      Count(s, l) == if l in m && Candidate(m, live, hier, q, i, l) then Multiplicity(m, live, hier, q, i, l) else 0
  }

  /** A set for position `i`: it holds all links that answer, as often as they are gathered, and if a handle is
      asked for there, only links that hold it there. */
  ghost predicate SetFor(m: map<Handle, Atom>, live: set<Handle>, hier: Hierarchy, q: Query, i: nat, s: seq<Handle>) {
    && (forall l :: l in s ==> l in live && l in m && m[l].key.LinkKey?)
    && (forall l :: Answers(m, live, hier, q, l) ==> l in s && Count(s, l) == Multiplicity(m, live, hier, q, i, l))
    && (q.HandleAt(i, live) ==> forall l :: l in s && l in m ==> PositionedAt(m[l].key, q.handles[i], i, q.arity))
  }

  /** A link that is gathered for position `i`: one that holds the handle there, or one of the type asked
      for with an atom of the target type anywhere. */
  ghost predicate Candidate(m: map<Handle, Atom>, live: set<Handle>, hier: Hierarchy, q: Query, i: nat, l: Handle) {
    && l in live && l in m && m[l].key.LinkKey?
    && if q.HandleAt(i, live) then PositionedAt(m[l].key, q.handles[i], i, q.arity)
       else
         && q.TypeAt(i) && hier.Fits(m[l].key.atomType, q.linkType, q.subclass)
         && Targets(m, hier, m[l].key.outgoing, q.types.value[i], q.SubAt(i))
  }

  /** Some atom of the type is named. */
  ghost predicate Targets(m: map<Handle, Atom>, hier: Hierarchy, outgoing: seq<Handle>, t: Type, sub: bool) {
    exists j :: 0 <= j < |outgoing| && outgoing[j] in m && hier.Fits(m[outgoing[j]].key.atomType, t, sub)
  }

  /** No link is gathered for the position, although it is constrained. */
  ghost predicate NoCandidate(m: map<Handle, Atom>, live: set<Handle>, hier: Hierarchy, q: Query, i: nat) {
    q.ConstrainedAt(i, live) && forall l :: !Candidate(m, live, hier, q, i, l)
  }

  predicate PositionedAt(k: Key, h: Handle, i: nat, arity: nat) {
    k.LinkKey? ==> |k.outgoing| == arity && i < arity && k.outgoing[i] == h
  }

  predicate TargetFits(m: map<Handle, Atom>, hier: Hierarchy, k: Key, t: Type, sub: bool, i: nat, arity: nat) {
    && k.LinkKey? && |k.outgoing| == arity && i < arity && k.outgoing[i] in m
    && hier.Fits(m[k.outgoing[i]].key.atomType, t, sub)
  }

  /** Links with the handle at the position. */
  function WithHandle(m: map<Handle, Atom>, h: Handle, i: nat, arity: nat): Handle -> bool {
    l => l in m && PositionedAt(m[l].key, h, i, arity)
  }

  function OfType(m: map<Handle, Atom>, hier: Hierarchy, t: Type, sub: bool): Handle -> bool {
    l => l in m && hier.Fits(m[l].key.atomType, t, sub)
  }

  /** Links with an atom of the type at the position. */
  function WithTarget(m: map<Handle, Atom>, hier: Hierarchy, t: Type, sub: bool, i: nat, arity: nat): Handle -> bool {
    l => l in m && TargetFits(m, hier, m[l].key, t, sub, i, arity)
  }

  lemma SetByHandle(m: map<Handle, Atom>, live: set<Handle>, inc: map<Handle, seq<Handle>>, hier: Hierarchy, q: Query,
                    i: nat)
    requires Closed(GraphOf(m), live) && IncomingOk(GraphOf(m), live, inc) && i < q.arity && q.HandleAt(i, live)
    ensures q.handles[i] in inc
    ensures var s := Filtered(inc[q.handles[i]], WithHandle(m, q.handles[i], i, q.arity));
      && SetFor(m, live, hier, q, i, s) && CountedFor(m, live, hier, q, i, s)
      && forall l :: l in s <==> Candidate(m, live, hier, q, i, l)
  {
    hide Filtered, IncomingOk;
    var h := q.handles[i];
    LivePresent(m, live);
    assert h in GraphOf(m);
    InIncoming(GraphOf(m), live, inc, h);
    IncomingKeys(GraphOf(m), live, inc);
    var keep := WithHandle(m, h, i, q.arity);
    FilteredCount(inc[h], keep);
    forall l | l in inc[h] ensures l in live && l in m && m[l].key.LinkKey? {
      assert h in Outgoing(GraphOf(m)[l]);
    }
    forall l | Candidate(m, live, hier, q, i, l) ensures l in Filtered(inc[h], keep) {
      assert m[l].key.outgoing[i] == h;
      assert h in Outgoing(GraphOf(m)[l]);
    }
    CandidateIfAnswers(m, live, hier, q, i);
    hide Candidate, Answers, AnswersAt;
    forall l
      ensures Count(Filtered(inc[h], keep), l) ==
        if l in m && Candidate(m, live, hier, q, i, l) then Multiplicity(m, live, hier, q, i, l) else 0
    {
      NotListed(Filtered(inc[h], keep), l);
      if l in inc[h] {
        NamedSoOften(m, live, inc, hier, q, i, l);
      }
    }
  }

  lemma NamedSoOften(m: map<Handle, Atom>, live: set<Handle>, inc: map<Handle, seq<Handle>>, hier: Hierarchy, q: Query,
                     i: nat, l: Handle)
    requires IncomingOk(GraphOf(m), live, inc) && q.HandleAt(i, live) && q.handles[i] in inc && l in live && l in m
    ensures Count(inc[q.handles[i]], l) == Multiplicity(m, live, hier, q, i, l)
  {
    assert q.handles[i] in GraphOf(m) && GraphOf(m)[l] == m[l].key;
  }

  lemma NotListed(s: seq<Handle>, l: Handle)
    ensures Count(s, l) == 0 <==> l !in s
  {
    assert l in s <==> l in multiset(s);
  }

  lemma CandidateIfAnswers(m: map<Handle, Atom>, live: set<Handle>, hier: Hierarchy, q: Query, i: nat)
    requires i < q.arity && (q.HandleAt(i, live) || q.TypeAt(i))
    ensures forall l :: Answers(m, live, hier, q, l) ==> l in live && l in m && Candidate(m, live, hier, q, i, l)
  {
    forall l | Answers(m, live, hier, q, l) ensures Candidate(m, live, hier, q, i, l) {
      assert AnswersAt(m, live, hier, q, m[l].key.outgoing, i);
    }
  }

  /** `list` holds what the target type index gives for the position. */
  lemma SetByType(m: map<Handle, Atom>, live: set<Handle>, hier: Hierarchy, q: Query, i: nat, bins: seq<set<Handle>>,
                  list: seq<Handle>, s: seq<Handle>, types: nat)
    requires hier.Ok(types) && KnownTypes(m, types)
    requires Closed(GraphOf(m), live) && BinsOk(bins, live, TargetBins(GraphOf(m))) && i < q.arity
    requires q.TypeAt(i) && !q.HandleAt(i, live)
    requires forall l :: Count(list, l) == BinCount(Wanted(hier.rec, hier.n, q.types.value[i], q.SubAt(i)), bins, 0, l)
    requires forall l :: l in list ==> l in m
    requires forall l ::
      Count(s, l) == if l in m && hier.Fits(m[l].key.atomType, q.linkType, q.subclass) then Count(list, l) else 0
    ensures SetFor(m, live, hier, q, i, s) && CountedFor(m, live, hier, q, i, s)
    ensures forall l :: l in s <==> Candidate(m, live, hier, q, i, l)
  {
    LivePresent(m, live);
    CandidateIsLive(m, live, hier, q, i);
    CandidateIfAnswers(m, live, hier, q, i);
    hide Candidate, Answers, AnswersAt, Multiplicity, BinsOk, BinCount, Count, KnownTypes;
    forall l
      ensures Count(s, l) ==
        if l in m && Candidate(m, live, hier, q, i, l) then Multiplicity(m, live, hier, q, i, l) else 0
      ensures l in s <==> Candidate(m, live, hier, q, i, l)
    {
      TypeCounted(m, live, hier, q, i, bins, list, l, types);
      NotListed(s, l);
    }
  }

  /** How often one link is gathered. */
  lemma TypeCounted(m: map<Handle, Atom>, live: set<Handle>, hier: Hierarchy, q: Query, i: nat, bins: seq<set<Handle>>,
                    list: seq<Handle>, l: Handle, types: nat)
    requires hier.Ok(types) && KnownTypes(m, types)
    requires Closed(GraphOf(m), live) && BinsOk(bins, live, TargetBins(GraphOf(m))) && i < q.arity
    requires q.TypeAt(i) && !q.HandleAt(i, live)
    requires Count(list, l) == BinCount(Wanted(hier.rec, hier.n, q.types.value[i], q.SubAt(i)), bins, 0, l)
    ensures l in m && Candidate(m, live, hier, q, i, l) ==>
      Count(list, l) == Multiplicity(m, live, hier, q, i, l) > 0 && hier.Fits(m[l].key.atomType, q.linkType, q.subclass)
    ensures l in m && !Candidate(m, live, hier, q, i, l) ==>
      Count(list, l) == 0 || !hier.Fits(m[l].key.atomType, q.linkType, q.subclass)
  {
    var t, sub := q.types.value[i], q.SubAt(i);
    var w := Wanted(hier.rec, hier.n, t, sub);
    LivePresent(m, live);
    if l in live {
      BinCountSize(w, bins, 0, l);
      BinsOfTargets(m, live, hier, t, sub, bins, l, types);
      hide BinsOk, BinCount, TargetTypes, Targets, WantedBins, KnownTypes, Closed, Hierarchy.Fits;
      if Targets(m, hier, Outgoing(m[l].key), t, sub) {
        SomeTargetType(m, hier, Outgoing(m[l].key), t, sub);
      } else {
        NoTargetType(m, hier, Outgoing(m[l].key), t, sub);
      }
    } else {
      BinCountNone(w, bins, 0, l);
    }
  }

  lemma CandidateIsLive(m: map<Handle, Atom>, live: set<Handle>, hier: Hierarchy, q: Query, i: nat)
    ensures forall l :: Candidate(m, live, hier, q, i, l) ==> l in live && l in m && m[l].key.LinkKey?
  {
  }

  /** The wanted bins of the target type index that hold a link are the types asked for among its targets. */
  lemma BinsOfTargets(m: map<Handle, Atom>, live: set<Handle>, hier: Hierarchy, t: Type, sub: bool,
                      bins: seq<set<Handle>>, l: Handle, types: nat)
    requires hier.Ok(types) && KnownTypes(m, types)
    requires Closed(GraphOf(m), live) && BinsOk(bins, live, TargetBins(GraphOf(m))) && l in live && l in m
    ensures var w := Wanted(hier.rec, hier.n, t, sub);
            WantedBins(w, bins, 0, l) == TargetTypes(m, hier, Outgoing(m[l].key), t, sub)
  {
    var g, w := GraphOf(m), Wanted(hier.rec, hier.n, t, sub);
    var outgoing := Outgoing(m[l].key);
    var wanted := WantedBins(w, bins, 0, l);
    var found := TargetTypes(m, hier, outgoing, t, sub);
    forall c | c in wanted ensures c in found {
      assert c in TargetBins(g)[l];
      var j :| 0 <= j < |outgoing| && outgoing[j] in g && g[outgoing[j]].atomType == c;
      assert m[outgoing[j]].key.atomType == c && At(hier.rec, c, c);
    }
    forall c | c in found ensures c in wanted {
      var j :| 0 <= j < |outgoing| && outgoing[j] in m && hier.Fits(m[outgoing[j]].key.atomType, t, sub)
        && m[outgoing[j]].key.atomType == c;
      assert outgoing[j] in g && g[outgoing[j]].atomType == c;
      assert c in TypesOf(g, outgoing);
      assert c in TargetBins(g)[l];
    }
  }

  lemma SomeTargetType(m: map<Handle, Atom>, hier: Hierarchy, outgoing: seq<Handle>, t: Type, sub: bool)
    requires Targets(m, hier, outgoing, t, sub)
    ensures |TargetTypes(m, hier, outgoing, t, sub)| > 0
  {
    var j :| 0 <= j < |outgoing| && outgoing[j] in m && hier.Fits(m[outgoing[j]].key.atomType, t, sub);
    assert m[outgoing[j]].key.atomType in TargetTypes(m, hier, outgoing, t, sub);
  }

  lemma NoTargetType(m: map<Handle, Atom>, hier: Hierarchy, outgoing: seq<Handle>, t: Type, sub: bool)
    requires !Targets(m, hier, outgoing, t, sub)
    ensures TargetTypes(m, hier, outgoing, t, sub) == {}
  {
  }

  lemma NoAnswers(m: map<Handle, Atom>, live: set<Handle>, hier: Hierarchy, q: Query, i: nat)
    requires SetFor(m, live, hier, q, i, [])
    ensures forall l :: !Answers(m, live, hier, q, l)
  {
    forall l ensures !Answers(m, live, hier, q, l) {
      assert l !in [];
    }
  }

  /** There is a set for every constrained position below `n`; `at` tells which set is for which. */
  ghost predicate SetsFor(m: map<Handle, Atom>, live: set<Handle>, hier: Hierarchy, q: Query, n: nat, at: seq<nat>,
                          sets: seq<seq<Handle>>)
  {
    && |at| == |sets| <= n
    && (forall j :: 0 <= j < |sets| ==>
          at[j] < n && q.ConstrainedAt(at[j], live) && SetFor(m, live, hier, q, at[j], sets[j]))
    && (forall i :: 0 <= i < n && q.ConstrainedAt(i, live) ==> i in at)
    && ((forall i :: 0 <= i < n ==> q.ConstrainedAt(i, live)) <==> |sets| == n)
  }

  /** All that passes the first `n` tests of target types. */
  ghost predicate Passes(m: map<Handle, Atom>, hier: Hierarchy, q: Query, n: nat, l: Handle) {
    forall i :: 0 <= i < n && q.TypeAt(i) ==>
      l in m && TargetFits(m, hier, m[l].key, q.types.value[i], q.SubAt(i), i, q.arity)
  }

  /** What is in all sets and passes all tests answers the query, and the other way round, if there is
      any set. */
  lemma CommonAnswers(m: map<Handle, Atom>, live: set<Handle>, hier: Hierarchy, q: Query, at: seq<nat>,
                      sets: seq<seq<Handle>>, l: Handle)
    requires q.Ok() && SetsFor(m, live, hier, q, q.arity, at, sets) && sets != [] && AllFit(m, hier, q, sets)
    ensures InAll(sets, l) && Passes(m, hier, q, q.arity, l) <==> Answers(m, live, hier, q, l)
  {
    if InAll(sets, l) && Passes(m, hier, q, q.arity, l) {
      assert l in sets[0] && SetFor(m, live, hier, q, at[0], sets[0]);
      var outgoing := m[l].key.outgoing;
      assert |outgoing| == q.arity;
      forall i | 0 <= i < q.arity ensures AnswersAt(m, live, hier, q, outgoing, i) {
        if q.HandleAt(i, live) {
          assert q.ConstrainedAt(i, live);
          var j :| 0 <= j < |at| && at[j] == i;
          assert l in sets[j] && SetFor(m, live, hier, q, at[j], sets[j]);
        }
      }
    }
    if Answers(m, live, hier, q, l) {
      forall j | 0 <= j < |sets| ensures l in sets[j] {
        assert SetFor(m, live, hier, q, at[j], sets[j]);
      }
      forall i | 0 <= i < q.arity && q.TypeAt(i)
        ensures l in m && TargetFits(m, hier, m[l].key, q.types.value[i], q.SubAt(i), i, q.arity)
      {
        assert AnswersAt(m, live, hier, q, m[l].key.outgoing, i);
      }
    }
  }

  ghost predicate InAll(sets: seq<seq<Handle>>, l: Handle) {
    forall j :: 0 <= j < |sets| ==> l in sets[j]
  }

  // ------------------------------------------------------- the query

  /** Keeps the atoms of a type; every atom is of the root type. */
  function FilteredByType(m: map<Handle, Atom>, hier: Hierarchy, s: seq<Handle>, t: Type, sub: bool): seq<Handle> {
    if t == hier.atom && sub then s else Filtered(s, OfType(m, hier, t, sub))
  }

  lemma FilteredByTypeKeeps(m: map<Handle, Atom>, hier: Hierarchy, s: seq<Handle>, t: Type, sub: bool, types: nat)
    requires hier.Ok(types) && KnownTypes(m, types) && forall l :: l in s ==> l in m
    ensures forall l :: l in FilteredByType(m, hier, s, t, sub) <==> l in s && hier.Fits(m[l].key.atomType, t, sub)
    ensures forall l ::
      Count(FilteredByType(m, hier, s, t, sub), l) ==
        if l in m && hier.Fits(m[l].key.atomType, t, sub) then Count(s, l) else 0
  {
    hide Filtered;
    FilteredCount(s, OfType(m, hier, t, sub));
    forall l | l in s && t == hier.atom && sub ensures hier.Fits(m[l].key.atomType, t, sub) {
      assert m[l].key.atomType < types;
    }
    forall l ensures Count(s, l) == 0 <==> l !in s {
      NotListed(s, l);
    }
  }

  ghost predicate Asked(table: AtomTable, server: ClassServer, hier: Hierarchy, q: Query)
    reads table, table.tlb, table.tlb.atoms, table.nodeIndex, table.linkIndex, table.typeIndex, table.targetTypeIndex
    reads table.importanceIndex, server
  {
    && table.Valid() && table.Settled() && q.Ok() && hier.Ok(table.types)
    && hier.rec == server.recursiveMap && hier.n == server.nTypes && hier.Unordered(table.unorderedTypes)
  }

  lemma AskedParts(table: AtomTable, server: ClassServer, hier: Hierarchy, q: Query)
    requires Asked(table, server, hier, q)
    ensures table.Valid() && table.Settled() && q.Ok() && hier.Ok(table.types) && table.tlb.Mirrors()
    ensures hier.rec == server.recursiveMap && hier.n == server.nTypes && server.nTypes < |table.targetTypeIndex.idx|
    ensures hier.IsA(q.linkType, hier.unorderedLink) <==> q.linkType in table.unorderedTypes
    ensures NormalLinks(table.tlb.handleMap, table.unorderedTypes)
    ensures Closed(GraphOf(table.tlb.handleMap), table.live) && KnownTypes(table.tlb.handleMap, table.types)
    ensures IncomingOk(GraphOf(table.tlb.handleMap), table.live, table.tlb.inc)
    ensures BinsOk(table.targetTypeIndex.idx, table.live, TargetBins(GraphOf(table.tlb.handleMap)))
  {
    hide IncomingMirrored, AttentionMirrored, MarkedMirrored, DecayedMirrored, Numbered;
    table.ValidParts();
    table.CatalogueParts(table.tlb.handleMap, table.tlb.avs, table.live, 0);
  }

  /** The candidates for one position: the links that name the handle there, or the links that name an
      atom of the type anywhere. */
  method Candidates(table: AtomTable, server: ClassServer, hier: Hierarchy, q: Query, i: nat) returns (s: seq<Handle>)
    requires Asked(table, server, hier, q) && i < q.arity && (q.HandleAt(i, table.live) || q.TypeAt(i))
    ensures SetFor(table.tlb.handleMap, table.live, hier, q, i, s)
    ensures CountedFor(table.tlb.handleMap, table.live, hier, q, i, s)
    ensures forall l :: l in s <==> Candidate(table.tlb.handleMap, table.live, hier, q, i, l)
  {
    hide *;
    AskedParts(table, server, hier, q);
    QueryShape(q);
    HandleMeans(table, q, i);
    ghost var m, live := table.tlb.handleMap, table.live;
    if q.handles != [] && table.tlb.IsValidHandle(q.handles[i]) {
      SetByHandle(m, live, table.tlb.inc, hier, q, i);
      table.Known(q.handles[i]);
      var atom := ImportanceIndex.GetAtom(table.tlb, q.handles[i]);
      s := Filtered(atom.incoming, WithHandle(table.tlb.handleMap, q.handles[i], i, q.arity));
    } else {
      TypeMeans(q, i);
      var t, sub := q.types.value[i], q.subclasses.Some? && q.subclasses.value[i];
      var list := GetHandleSet(server, table.targetTypeIndex.idx, t, sub);
      ghost var w := Wanted(hier.rec, hier.n, t, sub);
      WantedByServer(server, hier, t, sub);
      InIndex(m, live, table.targetTypeIndex.idx, w, list);
      FilteredByTypeKeeps(m, hier, list, q.linkType, q.subclass, table.types);
      s := FilteredByType(table.tlb.handleMap, hier, list, q.linkType, q.subclass);
      SetByType(m, live, hier, q, i, table.targetTypeIndex.idx, list, s, table.types);
    }
  }

  lemma WantedByServer(server: ClassServer, hier: Hierarchy, t: Type, sub: bool)
    requires hier.rec == server.recursiveMap && hier.n == server.nTypes
    ensures WantedOf(server, t, sub) == Wanted(hier.rec, hier.n, t, sub)
  {
  }

  lemma QueryShape(q: Query)
    requires q.Ok()
    ensures q.handles != [] ==> |q.handles| == q.arity
    ensures (q.types.Some? ==> |q.types.value| == q.arity) && (q.subclasses.Some? ==> |q.subclasses.value| == q.arity)
  {
  }

  lemma HandleMeans(table: AtomTable, q: Query, i: nat)
    requires table.Valid() && table.Settled() && q.Ok() && i < q.arity
    ensures q.HandleAt(i, table.live) <==> q.handles != [] && table.tlb.IsValidHandle(q.handles[i])
  {
    table.ValidParts();
    hide IncomingMirrored, AttentionMirrored, MarkedMirrored, DecayedMirrored, Numbered, ValuesOk;
    if q.handles != [] {
      table.ValidHandle(q.handles[i]);
    }
  }

  lemma TypeMeans(q: Query, i: nat)
    requires q.Ok() && i < q.arity && q.TypeAt(i)
    ensures q.types.Some? && q.SubAt(i) == (q.subclasses.Some? && q.subclasses.value[i])
  {
  }

  lemma InIndex(m: map<Handle, Atom>, live: set<Handle>, bins: seq<set<Handle>>, w: Wanted, list: seq<Handle>)
    requires Closed(GraphOf(m), live) && BinsOk(bins, live, TargetBins(GraphOf(m)))
    requires forall l :: Count(list, l) == BinCount(w, bins, 0, l)
    ensures forall l :: l in list ==> l in m
  {
    LivePresent(m, live);
    forall l | l in list ensures l in m {
      assert Count(list, l) > 0;
      BinCountSome(w, bins, 0, l);
    }
  }

  lemma NoSets(m: map<Handle, Atom>, live: set<Handle>, hier: Hierarchy, q: Query)
    ensures SetsFor(m, live, hier, q, 0, [], []) && AllFit(m, hier, q, [])
  {
  }

  lemma OneMoreSet(m: map<Handle, Atom>, live: set<Handle>, hier: Hierarchy, q: Query, n: nat, at: seq<nat>,
                   sets: seq<seq<Handle>>, s: seq<Handle>)
    requires SetsFor(m, live, hier, q, n, at, sets) && SetFor(m, live, hier, q, n, s) && q.ConstrainedAt(n, live)
    ensures SetsFor(m, live, hier, q, n + 1, at + [n], sets + [s])
  {
    hide SetFor;
    var at' := at + [n];
    assert at'[|at|] == n;
    forall i | 0 <= i < n && q.ConstrainedAt(i, live) ensures i in at' {
      assert i in at;
    }
  }

  lemma NoMoreSet(m: map<Handle, Atom>, live: set<Handle>, hier: Hierarchy, q: Query, n: nat, at: seq<nat>,
                  sets: seq<seq<Handle>>)
    requires SetsFor(m, live, hier, q, n, at, sets) && !q.ConstrainedAt(n, live)
    ensures SetsFor(m, live, hier, q, n + 1, at, sets)
  {
    hide SetFor;
  }

  ghost predicate AllFit(m: map<Handle, Atom>, hier: Hierarchy, q: Query, sets: seq<seq<Handle>>) {
    forall i, x :: 0 <= i < |sets| && x in sets[i] ==> x in m && hier.Fits(m[x].key.atomType, q.linkType, q.subclass)
  }

  /** Filtering a set by the type asked for. */
  lemma FitSet(m: map<Handle, Atom>, live: set<Handle>, hier: Hierarchy, q: Query, n: nat, at: seq<nat>,
               sets: seq<seq<Handle>>, j: nat, types: nat)
    requires SetsFor(m, live, hier, q, n, at, sets) && j < |sets| && hier.Ok(types) && KnownTypes(m, types)
    ensures var s := FilteredByType(m, hier, sets[j], q.linkType, q.subclass);
      && SetsFor(m, live, hier, q, n, at, sets[j := s])
      && forall x :: x in s ==> x in m && hier.Fits(m[x].key.atomType, q.linkType, q.subclass)
  {
    hide FilteredByType;
    assert SetFor(m, live, hier, q, at[j], sets[j]);
    FilteredByTypeKeeps(m, hier, sets[j], q.linkType, q.subclass, types);
  }

  /** All atoms are of the root type. */
  lemma AllOfRootType(m: map<Handle, Atom>, live: set<Handle>, hier: Hierarchy, q: Query, n: nat, at: seq<nat>,
                      sets: seq<seq<Handle>>, types: nat)
    requires SetsFor(m, live, hier, q, n, at, sets) && hier.Ok(types) && KnownTypes(m, types)
    requires q.linkType == hier.atom && q.subclass
    ensures AllFit(m, hier, q, sets)
  {
    forall j, x | 0 <= j < |sets| && x in sets[j]
      ensures x in m && hier.Fits(m[x].key.atomType, q.linkType, q.subclass)
    {
      assert SetFor(m, live, hier, q, at[j], sets[j]);
      assert m[x].key.atomType < types;
    }
  }

  /** The first `n` sets have been filtered. */
  ghost predicate FirstFit(m: map<Handle, Atom>, hier: Hierarchy, q: Query, sets: seq<seq<Handle>>, n: nat) {
    forall i, x :: 0 <= i < |sets| && i < n && x in sets[i] ==>
      x in m && hier.Fits(m[x].key.atomType, q.linkType, q.subclass)
  }

  lemma OneMoreFits(m: map<Handle, Atom>, hier: Hierarchy, q: Query, sets: seq<seq<Handle>>, n: nat, s: seq<Handle>)
    requires FirstFit(m, hier, q, sets, n) && n < |sets|
    requires forall x :: x in s ==> x in m && hier.Fits(m[x].key.atomType, q.linkType, q.subclass)
    ensures FirstFit(m, hier, q, sets[n := s], n + 1)
  {
  }

  lemma FitAll(m: map<Handle, Atom>, hier: Hierarchy, q: Query, sets: seq<seq<Handle>>)
    ensures FirstFit(m, hier, q, sets, 0)
    ensures FirstFit(m, hier, q, sets, |sets|) <==> AllFit(m, hier, q, sets)
  {
  }

  /** `n` is the least number of times that a set holds the handle. */
  ghost predicate LeastCount(sets: seq<seq<Handle>>, l: Handle, n: nat) {
    && (forall j :: 0 <= j < |sets| ==> n <= Count(sets[j], l))
    && exists j :: 0 <= j < |sets| && n == Count(sets[j], l)
  }

  lemma InAllSets(sets: seq<seq<Handle>>, common: seq<Handle>)
    requires |sets| == 0 ==> common == []
    requires |sets| > 0 ==> forall h :: Count(common, h) == CommonCount(sets, h)
    ensures forall l :: l in common <==> |sets| > 0 && InAll(sets, l)
    ensures forall l :: l in common ==> LeastCount(sets, l, Count(common, l))
  {
    if |sets| > 0 {
      forall l ensures LeastCount(sets, l, Count(common, l)) {
        CommonCountIsLeast(sets, l);
      }
    }
    forall l ensures l in common <==> |sets| > 0 && InAll(sets, l) {
      if |sets| > 0 {
        CommonMeansInAll(sets, l);
        assert l in common <==> Count(common, l) > 0;
      }
    }
  }

  lemma NoTests(m: map<Handle, Atom>, hier: Hierarchy, q: Query)
    ensures forall l :: Passes(m, hier, q, 0, l)
  {
  }

  lemma WithoutTypes(m: map<Handle, Atom>, hier: Hierarchy, q: Query)
    requires q.types.None?
    ensures forall l :: Passes(m, hier, q, q.arity, l)
  {
  }

  lemma OneMoreTest(m: map<Handle, Atom>, hier: Hierarchy, q: Query, i: nat, result: seq<Handle>)
    requires q.Ok() && q.types.Some? && i < q.arity
    ensures forall l :: Passes(m, hier, q, i + 1, l) <==> Passes(m, hier, q, i, l) && PassesTest(m, hier, q, i, l)
    ensures q.types.value[i] == NOTYPE ==> forall l :: PassesTest(m, hier, q, i, l)
    ensures q.types.value[i] != NOTYPE ==>
      var sub := q.subclasses.Some? && q.subclasses.value[i];
      forall l :: l in Filtered(result, WithTarget(m, hier, q.types.value[i], sub, i, q.arity)) <==>
        l in result && PassesTest(m, hier, q, i, l)
  {
    hide Filtered;
    FilteredCount(result, WithTarget(m, hier, q.types.value[i], q.SubAt(i), i, q.arity));
  }

  /** A filter keeps the order, and each handle as often as it was there. */
  lemma FilteredKeeps(s: seq<Handle>, keep: Handle -> bool)
    requires Sorted(s)
    ensures Sorted(Filtered(s, keep))
    ensures forall l :: l in Filtered(s, keep) ==> l in s && Count(Filtered(s, keep), l) == Count(s, l)
  {
    FilteredSorted(s, keep);
    FilteredCount(s, keep);
  }

  /** The answer is ascending, and each link is in it as often as the position for which it was gathered least
      often. */
  ghost predicate ListedInOrder(m: map<Handle, Atom>, live: set<Handle>, hier: Hierarchy, q: Query, r: seq<Handle>) {
    Sorted(r) && forall l :: l in r ==> l in m && LeastGathered(m, live, hier, q, l, Count(r, l))
  }

  ghost predicate LeastGathered(m: map<Handle, Atom>, live: set<Handle>, hier: Hierarchy, q: Query, l: Handle, n: nat)
    requires l in m
  {
    && (forall i :: 0 <= i < q.arity && q.ConstrainedAt(i, live) ==> n <= Multiplicity(m, live, hier, q, i, l))
    && exists i :: 0 <= i < q.arity && q.ConstrainedAt(i, live) && n == Multiplicity(m, live, hier, q, i, l)
  }

  lemma NothingListedInOrder(m: map<Handle, Atom>, live: set<Handle>, hier: Hierarchy, q: Query)
    ensures ListedInOrder(m, live, hier, q, [])
  {
  }

  /** The sets hold a link as often as it was gathered. */
  lemma LeastOfSets(m: map<Handle, Atom>, live: set<Handle>, hier: Hierarchy, q: Query, at: seq<nat>,
                    sets: seq<seq<Handle>>, l: Handle, n: nat)
    requires SetsFor(m, live, hier, q, q.arity, at, sets) && Answers(m, live, hier, q, l) && LeastCount(sets, l, n)
    ensures LeastGathered(m, live, hier, q, l, n)
  {
    hide Multiplicity, Count;
    assert forall j :: 0 <= j < |sets| ==> SetFor(m, live, hier, q, at[j], sets[j]);
    forall i | 0 <= i < q.arity && q.ConstrainedAt(i, live) ensures n <= Multiplicity(m, live, hier, q, i, l) {
      var j :| 0 <= j < |at| && at[j] == i;
      assert n <= Count(sets[j], l);
    }
    var j :| 0 <= j < |sets| && n == Count(sets[j], l);
    assert q.ConstrainedAt(at[j], live) && n == Multiplicity(m, live, hier, q, at[j], l);
  }

  /** A link is listed once if some position asks for an atom that it names once, or for one type without its
      subtypes. */
  lemma ListedOnce(m: map<Handle, Atom>, live: set<Handle>, hier: Hierarchy, q: Query, r: seq<Handle>, l: Handle,
                   i: nat)
    requires ListedInOrder(m, live, hier, q, r) && l in r && l in m && i < q.arity && q.ConstrainedAt(i, live)
    requires if q.HandleAt(i, live) then NoRepeats(Outgoing(m[l].key)) || Count(Outgoing(m[l].key), q.handles[i]) == 1
             else !q.SubAt(i)
    ensures Count(r, l) == 1
  {
    NotListed(r, l);
    if q.HandleAt(i, live) {
      if NoRepeats(Outgoing(m[l].key)) {
        CountOnce(Outgoing(m[l].key), q.handles[i]);
      }
    } else {
      OneType(m, hier, Outgoing(m[l].key), q.types.value[i]);
    }
  }

  lemma OneType(m: map<Handle, Atom>, hier: Hierarchy, outgoing: seq<Handle>, t: Type)
    ensures |TargetTypes(m, hier, outgoing, t, false)| <= 1
  {
    var found := TargetTypes(m, hier, outgoing, t, false);
    assert found == if t in found then {t} else {};
  }

  ghost predicate PassesTest(m: map<Handle, Atom>, hier: Hierarchy, q: Query, i: nat, l: Handle) {
    q.TypeAt(i) ==> l in m && TargetFits(m, hier, m[l].key, q.types.value[i], q.SubAt(i), i, q.arity)
  }

  lemma FinalAnswer(m: map<Handle, Atom>, live: set<Handle>, hier: Hierarchy, q: Query, at: seq<nat>,
                    sets: seq<seq<Handle>>, common: seq<Handle>, result: seq<Handle>)
    requires q.Ok() && SetsFor(m, live, hier, q, q.arity, at, sets) && AllFit(m, hier, q, sets)
    requires forall l :: l in common <==> |sets| > 0 && InAll(sets, l)
    requires forall l :: l in common ==> LeastCount(sets, l, Count(common, l))
    requires forall l :: l in result <==> l in common && Passes(m, hier, q, q.arity, l)
    requires Sorted(result) && forall l :: l in result ==> Count(result, l) == Count(common, l)
    ensures forall l :: l in result <==> Answers(m, live, hier, q, l) && !q.Open(live)
    ensures ListedInOrder(m, live, hier, q, result)
  {
    SetsIfConstrained(m, live, hier, q, at, sets);
    hide SetsFor, Passes, Answers, InAll, AllFit;
    if sets != [] {
      forall l ensures InAll(sets, l) && Passes(m, hier, q, q.arity, l) <==> Answers(m, live, hier, q, l) {
        CommonAnswers(m, live, hier, q, at, sets, l);
      }
    }
    AnswersAreThere(m, live, hier, q);
    forall l | l in result ensures l in m && LeastGathered(m, live, hier, q, l, Count(result, l)) {
      LeastOfSets(m, live, hier, q, at, sets, l, Count(result, l));
    }
  }

  lemma AnswersAreThere(m: map<Handle, Atom>, live: set<Handle>, hier: Hierarchy, q: Query)
    ensures forall l :: Answers(m, live, hier, q, l) ==> l in live && l in m
  {
  }

  /** Leaving out the query without constraints makes no difference exactly if it has a constraint, or
      there is no link of the type and arity. */
  lemma OpenIsScan(m: map<Handle, Atom>, live: set<Handle>, hier: Hierarchy, q: Query)
    requires live <= m.Keys
    ensures (forall l :: Answers(m, live, hier, q, l) && !q.Open(live) <==> Answers(m, live, hier, q, l))
      <==> !q.Open(live) || forall l :: l in live ==> !OfShape(m, hier, q, l)
  {
    if q.Open(live) {
      forall l | l in live && OfShape(m, hier, q, l) ensures Answers(m, live, hier, q, l) {
        forall i | 0 <= i < q.arity ensures AnswersAt(m, live, hier, q, m[l].key.outgoing, i) {
          assert !q.ConstrainedAt(i, live);
        }
      }
    }
  }

  /** A link of the type and the arity. */
  ghost predicate OfShape(m: map<Handle, Atom>, hier: Hierarchy, q: Query, l: Handle) {
    && l in m && m[l].key.LinkKey? && |m[l].key.outgoing| == q.arity
    && hier.Fits(m[l].key.atomType, q.linkType, q.subclass)
  }

  lemma SetsIfConstrained(m: map<Handle, Atom>, live: set<Handle>, hier: Hierarchy, q: Query, at: seq<nat>,
                          sets: seq<seq<Handle>>)
    requires SetsFor(m, live, hier, q, q.arity, at, sets)
    ensures sets == [] <==> q.Open(live)
  {
    if sets != [] {
      assert q.ConstrainedAt(at[0], live);
    }
  }

  /** Gathers a set for every constrained position; gives up exactly when one is empty. There is a set for
      every position exactly if every position is constrained. */
  method Gather(table: AtomTable, server: ClassServer, hier: Hierarchy, q: Query)
    returns (sets: seq<seq<Handle>>, hopeless: bool, ghost at: seq<nat>)
    requires Asked(table, server, hier, q)
    ensures hopeless <==> exists i :: 0 <= i < q.arity && NoCandidate(table.tlb.handleMap, table.live, hier, q, i)
    ensures hopeless ==> forall l :: !Answers(table.tlb.handleMap, table.live, hier, q, l)
    ensures !hopeless ==> SetsFor(table.tlb.handleMap, table.live, hier, q, q.arity, at, sets)
    ensures !hopeless ==> |sets| <= q.arity
    ensures !hopeless ==> (|sets| < q.arity <==> exists i :: 0 <= i < q.arity && !q.ConstrainedAt(i, table.live))
  {
    hide *;
    AskedParts(table, server, hier, q);
    QueryShape(q);
    ghost var m, live := table.tlb.handleMap, table.live;
    sets, hopeless, at := [], false, [];
    NoSets(m, live, hier, q);
    for i := 0 to q.arity
      invariant SetsFor(m, live, hier, q, i, at, sets)
      invariant forall j :: 0 <= j < i ==> !NoCandidate(m, live, hier, q, j)
    {
      HandleMeans(table, q, i);
      ConstraintMeans(q, i, live);
      if (q.handles != [] && table.tlb.IsValidHandle(q.handles[i])) || (q.types.Some? && q.types.value[i] != NOTYPE) {
        var s := Candidates(table, server, hier, q, i);
        CandidatesThere(m, live, hier, q, i, s);
        if s == [] {
          NoAnswers(m, live, hier, q, i);
          hopeless := true;
          return;
        }
        OneMoreSet(m, live, hier, q, i, at, sets, s);
        sets, at := sets + [s], at + [i];
      } else {
        NotGathered(m, live, hier, q, i);
        NoMoreSet(m, live, hier, q, i, at, sets);
      }
    }
    SetsCounted(m, live, hier, q, at, sets);
  }

  lemma CandidatesThere(m: map<Handle, Atom>, live: set<Handle>, hier: Hierarchy, q: Query, i: nat, s: seq<Handle>)
    requires forall l :: l in s <==> Candidate(m, live, hier, q, i, l)
    requires q.ConstrainedAt(i, live)
    ensures NoCandidate(m, live, hier, q, i) <==> s == []
  {
    hide Candidate;
    assert s != [] ==> s[0] in s;
  }

  lemma NotGathered(m: map<Handle, Atom>, live: set<Handle>, hier: Hierarchy, q: Query, i: nat)
    requires !q.ConstrainedAt(i, live)
    ensures !NoCandidate(m, live, hier, q, i)
  {
  }

  lemma SetsCounted(m: map<Handle, Atom>, live: set<Handle>, hier: Hierarchy, q: Query, at: seq<nat>,
                    sets: seq<seq<Handle>>)
    requires SetsFor(m, live, hier, q, q.arity, at, sets)
    ensures |sets| <= q.arity
    ensures |sets| < q.arity <==> exists i :: 0 <= i < q.arity && !q.ConstrainedAt(i, live)
  {
    hide SetFor;
  }

  lemma ConstraintMeans(q: Query, i: nat, live: set<Handle>)
    requires q.Ok() && i < q.arity
    ensures q.ConstrainedAt(i, live) <==> q.HandleAt(i, live) || q.TypeAt(i)
    ensures q.TypeAt(i) <==> q.types.Some? && q.types.value[i] != NOTYPE
  {
  }

  datatype QueryError = NoSuchSet

  /** The sets are filtered by the type asked for, unless all atoms are of it. The loop goes over all
      positions, also when there are fewer sets: then it reads a set that is not there. */
  method FilterSets(table: AtomTable, server: ClassServer, hier: Hierarchy, q: Query, sets: seq<seq<Handle>>,
                    ghost at: seq<nat>)
    returns (r: Result<seq<seq<Handle>>, QueryError>)
    requires Asked(table, server, hier, q)
    requires SetsFor(table.tlb.handleMap, table.live, hier, q, q.arity, at, sets) && |sets| <= q.arity
    ensures r.Failure? <==> |sets| < q.arity && !q.AnyType(hier)
    ensures r.Success? ==> SetsFor(table.tlb.handleMap, table.live, hier, q, q.arity, at, r.value)
    ensures r.Success? ==> AllFit(table.tlb.handleMap, hier, q, r.value)
  {
    hide *;
    AskedParts(table, server, hier, q);
    AnyTypeMeans(q, hier);
    ghost var m, live := table.tlb.handleMap, table.live;
    var fitting := sets;
    if q.linkType == hier.atom && q.subclass {
      AllOfRootType(m, live, hier, q, q.arity, at, sets, table.types);
      return Success(fitting);
    }
    FitAll(m, hier, q, fitting);
    for i := 0 to q.arity
      invariant i <= |fitting| == |sets|
      invariant SetsFor(m, live, hier, q, q.arity, at, fitting) && FirstFit(m, hier, q, fitting, i)
    {
      if i >= |fitting| {
        return Failure(NoSuchSet);
      }
      FitSet(m, live, hier, q, q.arity, at, fitting, i, table.types);
      var s := FilteredByType(table.tlb.handleMap, hier, fitting[i], q.linkType, q.subclass);
      OneMoreFits(m, hier, q, fitting, i, s);
      fitting := fitting[i := s];
    }
    FitAll(m, hier, q, fitting);
    return Success(fitting);
  }

  lemma AnyTypeMeans(q: Query, hier: Hierarchy)
    ensures q.AnyType(hier) <==> q.linkType == hier.atom && q.subclass
  {
  }

  /** The code comes to filter by type with fewer sets than positions: no set for a constrained position is
      empty, some position is not constrained, and not all atoms are of the type. */
  ghost predicate TooFewSets(m: map<Handle, Atom>, live: set<Handle>, hier: Hierarchy, q: Query) {
    && !q.AnyType(hier) && (exists i :: 0 <= i < q.arity && !q.ConstrainedAt(i, live))
    && forall i :: 0 <= i < q.arity ==> !NoCandidate(m, live, hier, q, i)
  }

  lemma TooFewMeans(m: map<Handle, Atom>, live: set<Handle>, hier: Hierarchy, q: Query)
    ensures TooFewSets(m, live, hier, q) <==>
      && !q.AnyType(hier) && (exists i :: 0 <= i < q.arity && !q.ConstrainedAt(i, live))
      && !exists i :: 0 <= i < q.arity && NoCandidate(m, live, hier, q, i)
  {
    hide NoCandidate;
  }

  /** The answer by way of the sets for the positions: gathered, filtered by type, intersected, and
      filtered by the types of the targets. A query without any constraint finds nothing. */
  method ByIntersection(table: AtomTable, server: ClassServer, hier: Hierarchy, q: Query)
    returns (r: Result<seq<Handle>, QueryError>)
    requires Asked(table, server, hier, q)
    ensures r.Failure? <==> TooFewSets(table.tlb.handleMap, table.live, hier, q)
    ensures r.Success? ==>
      forall l :: l in r.value <==> Answers(table.tlb.handleMap, table.live, hier, q, l) && !q.Open(table.live)
    ensures r.Success? ==> ListedInOrder(table.tlb.handleMap, table.live, hier, q, r.value)
  {
    hide *;
    AskedParts(table, server, hier, q);
    QueryShape(q);
    ghost var m, live := table.tlb.handleMap, table.live;
    TooFewMeans(m, live, hier, q);
    NothingListedInOrder(m, live, hier, q);
    var sets, hopeless;
    ghost var at;
    sets, hopeless, at := Gather(table, server, hier, q);
    if hopeless {
      return Success([]);
    }
    var filtered := FilterSets(table, server, hier, q, sets, at);
    if filtered.Failure? {
      return Failure(NoSuchSet);
    }
    var fitting := filtered.value;
    var common := Intersection(fitting);
    InAllSets(fitting, common);
    var result := common;
    NoTests(m, hier, q);
    if q.types.Some? {
      for i := 0 to q.arity
        invariant forall l :: l in result <==> l in common && Passes(m, hier, q, i, l)
        invariant Sorted(result) && forall l :: l in result ==> Count(result, l) == Count(common, l)
      {
        OneMoreTest(m, hier, q, i, result);
        ghost var before := result;
        if q.types.value[i] != NOTYPE {
          var sub := q.subclasses.Some? && q.subclasses.value[i];
          FilteredKeeps(result, WithTarget(table.tlb.handleMap, hier, q.types.value[i], sub, i, q.arity));
          result := Filtered(result, WithTarget(table.tlb.handleMap, hier, q.types.value[i], sub, i, q.arity));
        }
        assert forall l :: l in result <==> l in before && PassesTest(m, hier, q, i, l);
      }
    } else {
      WithoutTypes(m, hier, q);
    }
    FinalAnswer(m, live, hier, q, at, fitting, common, result);
    return Success(result);
  }

  /** Links by their outgoing sets. With valid handles everywhere and without subtypes the one link over
      these handles is looked up, for an unordered type in any order, and the types are not looked at.
      Otherwise the answer is what a scan of all atoms gives, with two exceptions: a query which constrains no
      position finds nothing, unless it asks for links without targets; and with too few sets the code
      reads one that is not there. */
  method GetHandleSetByOutgoing(table: AtomTable, server: ClassServer, hier: Hierarchy, q: Query)
    returns (r: Result<seq<Handle>, QueryError>)
    requires Asked(table, server, hier, q)
    ensures r.Failure? <==>
      && !q.FastPath(hier, table.live) && !q.Targetless(hier)
      && TooFewSets(table.tlb.handleMap, table.live, hier, q)
    ensures r.Success? && q.FastPath(hier, table.live) ==>
      && |r.value| <= 1
      && forall l :: l in r.value <==> LooksUp(table.tlb.handleMap, table.live, q, table.unorderedTypes, l)
    ensures r.Success? && !q.FastPath(hier, table.live) && !q.Targetless(hier) ==>
      && ListedInOrder(table.tlb.handleMap, table.live, hier, q, r.value)
      && forall l :: l in r.value <==> Answers(table.tlb.handleMap, table.live, hier, q, l) && !q.Open(table.live)
    ensures r.Success? && !q.FastPath(hier, table.live) && q.Targetless(hier) ==>
      forall l :: Count(r.value, l) == if NamesNothing(table.tlb.handleMap, table.live, hier, q, l) then 1 else 0
  {
    hide *;
    AskedParts(table, server, hier, q);
    QueryShape(q);
    PathMeans(q, hier, table.live);
    if hier.IsA(q.linkType, hier.link) && (q.arity == 0 || q.handles != []) {
      var hasAllHandles := AllHandles(table, q);
      if hasAllHandles && !q.subclass {
        var unordered := hier.IsA(q.linkType, hier.unorderedLink);
        var result := Lookup(table, LinkKey(q.linkType, Normalised(q.handles, unordered)));
        LookedUp(table.tlb.handleMap, table.live, q, table.unorderedTypes);
        return Success(result);
      }
    }
    if hier.IsA(q.linkType, hier.link) && q.arity == 0 {
      var result := GetHandleSetByType(table, server, hier, q.linkType, q.subclass);
      result := WithoutTargets(table, hier, q, result);
      return Success(result);
    }
    r := ByIntersection(table, server, hier, q);
  }

  /** An atom of the type that names no atom; a node has arity zero here. */
  ghost predicate NamesNothing(m: map<Handle, Atom>, live: set<Handle>, hier: Hierarchy, q: Query, l: Handle) {
    l in live && l in m && Outgoing(m[l].key) == [] && hier.Fits(m[l].key.atomType, q.linkType, q.subclass)
  }

  method WithoutTargets(table: AtomTable, hier: Hierarchy, q: Query, list: seq<Handle>) returns (result: seq<Handle>)
    requires table.Valid() && hier.Ok(table.types)
    requires forall h ::
      Count(list, h) ==
        if h in table.live && HasType(table.tlb.handleMap, hier, q.linkType, q.subclass, h) then 1 else 0
    ensures forall l :: Count(result, l) == if NamesNothing(table.tlb.handleMap, table.live, hier, q, l) then 1 else 0
  {
    hide *;
    TypeIndexHolds(table);
    FilteredTargetless(table.tlb.handleMap, table.live, hier, q, list, table.types);
    result := Filtered(list, Barren(table.tlb.handleMap));
  }

  function Barren(m: map<Handle, Atom>): Handle -> bool {
    l => l in m && Outgoing(m[l].key) == []
  }

  lemma FilteredTargetless(m: map<Handle, Atom>, live: set<Handle>, hier: Hierarchy, q: Query, list: seq<Handle>,
                           types: nat)
    requires KnownTypes(m, types) && hier.Ok(types)
    requires forall h :: Count(list, h) == if h in live && HasType(m, hier, q.linkType, q.subclass, h) then 1 else 0
    ensures forall l :: Count(Filtered(list, Barren(m)), l) == if NamesNothing(m, live, hier, q, l) then 1 else 0
  {
    hide Filtered;
    FilteredCount(list, Barren(m));
    forall l | l in m
      ensures HasType(m, hier, q.linkType, q.subclass, l) <==> hier.Fits(m[l].key.atomType, q.linkType, q.subclass)
    {
      assert m[l].key.atomType < types;
      assert At(hier.rec, m[l].key.atomType, m[l].key.atomType);
    }
  }

  lemma LookedUp(m: map<Handle, Atom>, live: set<Handle>, q: Query, unorderedTypes: set<nat>)
    requires NormalLinks(m, unorderedTypes)
    ensures var k := LinkKey(q.linkType, Normalised(q.handles, q.linkType in unorderedTypes));
            forall l :: l in live && l in m && m[l].key == k <==> LooksUp(m, live, q, unorderedTypes, l)
  {
    forall l | l in live && l in m
      ensures m[l].key == NewLink(q.linkType, q.handles, unorderedTypes) <==> LooksUp(m, live, q, unorderedTypes, l)
    {
      assert Normal(m[l].key, unorderedTypes);
      MadeOf(m[l].key, q.linkType, q.handles, unorderedTypes);
    }
  }

  method AllHandles(table: AtomTable, q: Query) returns (all: bool)
    requires table.Valid() && table.Settled() && q.Ok() && (q.arity == 0 || q.handles != [])
    ensures all <==> forall i :: 0 <= i < q.arity ==> q.handles[i] in table.live
  {
    hide *;
    QueryShape(q);
    table.ValidParts();
    all := true;
    var i := 0;
    while all && i < q.arity
      invariant i <= q.arity
      invariant all ==> forall k :: 0 <= k < i ==> q.handles[k] in table.live
      invariant !all ==> exists k :: 0 <= k < q.arity && q.handles[k] !in table.live
    {
      table.ValidHandle(q.handles[i]);
      all := table.tlb.IsValidHandle(q.handles[i]);
      i := i + 1;
    }
  }

  lemma PathMeans(q: Query, hier: Hierarchy, live: set<Handle>)
    requires q.Ok()
    ensures q.FastPath(hier, live) <==>
      && hier.IsA(q.linkType, hier.link) && (q.arity == 0 || q.handles != []) && !q.subclass
      && forall i :: 0 <= i < q.arity ==> q.handles[i] in live
    ensures q.Targetless(hier) <==> hier.IsA(q.linkType, hier.link) && q.arity == 0
  {
  }

  // ------------------------------------------------------- all atoms of a type

  lemma HierarchySize(hier: Hierarchy, types: nat)
    requires hier.Ok(types)
    ensures hier.n == types
  {
  }

  lemma TypeIndexHolds(table: AtomTable)
    requires table.Valid()
    ensures BinsOk(table.typeIndex.idx, table.live, TypeBins(GraphOf(table.tlb.handleMap)))
    ensures |table.typeIndex.idx| == table.types + 1 && KnownTypes(table.tlb.handleMap, table.types)
  {
    table.ValidParts();
    table.CatalogueParts(table.tlb.handleMap, table.tlb.avs, table.live, 0);
  }

  /** The atoms of a type, or of a type and its subtypes: each once. */
  method GetHandleSetByType(table: AtomTable, server: ClassServer, hier: Hierarchy, t: Type, sub: bool)
    returns (result: seq<Handle>)
    requires table.Valid() && hier.Ok(table.types) && hier.rec == server.recursiveMap && hier.n == server.nTypes
    ensures forall h ::
      Count(result, h) == if h in table.live && HasType(table.tlb.handleMap, hier, t, sub, h) then 1 else 0
  {
    hide *;
    TypeIndexHolds(table);
    HierarchySize(hier, table.types);
    WantedByServer(server, hier, t, sub);
    result := GetHandleSet(server, table.typeIndex.idx, t, sub);
    forall h
      ensures Count(result, h) == if h in table.live && HasType(table.tlb.handleMap, hier, t, sub, h) then 1 else 0
    {
      TypeIndexCount(Wanted(hier.rec, hier.n, t, sub),
                     table.typeIndex.idx, GraphOf(table.tlb.handleMap), table.live, h);
      HasTypeMeans(table.tlb.handleMap, hier, t, sub, h);
    }
  }

  /** What it is to answer, in the words of the query: the types asked for and the subtypes, where they are
      allowed, are those of the hierarchy. */
  lemma AnswersInWords(m: map<Handle, Atom>, live: set<Handle>, hier: Hierarchy, q: Query, l: Handle, types: nat)
    requires hier.Ok(types) && KnownTypes(m, types) && q.Ok()
    ensures Answers(m, live, hier, q, l) <==>
      && l in live && l in m && m[l].key.LinkKey? && |m[l].key.outgoing| == q.arity
      && HasType(m, hier, q.linkType, q.subclass, l)
      && forall i :: 0 <= i < q.arity ==>
           && (q.handles != [] && q.handles[i] in live ==> m[l].key.outgoing[i] == q.handles[i])
           && (q.types.Some? && q.types.value[i] != NOTYPE ==>
                 HasType(m, hier, q.types.value[i], q.subclasses.Some? && q.subclasses.value[i], m[l].key.outgoing[i]))
  {
    forall h, t, sub | h in m ensures hier.Fits(m[h].key.atomType, t, sub) <==> HasType(m, hier, t, sub, h) {
      assert m[h].key.atomType < types;
      assert At(hier.rec, m[h].key.atomType, m[h].key.atomType);
    }
    if l in m && m[l].key.LinkKey? && |m[l].key.outgoing| == q.arity {
      forall i | 0 <= i < q.arity
        ensures AnswersAt(m, live, hier, q, m[l].key.outgoing, i) <==>
          && (q.handles != [] && q.handles[i] in live ==> m[l].key.outgoing[i] == q.handles[i])
          && (q.types.Some? && q.types.value[i] != NOTYPE ==>
                HasType(m, hier, q.types.value[i], q.subclasses.Some? && q.subclasses.value[i], m[l].key.outgoing[i]))
      {
      }
    }
  }

  ghost predicate HasType(m: map<Handle, Atom>, hier: Hierarchy, t: Type, sub: bool, h: Handle) {
    h in m && (m[h].key.atomType == t || (sub && hier.IsA(m[h].key.atomType, t)))
  }

  lemma HasTypeMeans(m: map<Handle, Atom>, hier: Hierarchy, t: Type, sub: bool, h: Handle)
    ensures h in GraphOf(m) && Wanted(hier.rec, hier.n, t, sub).Fits(GraphOf(m)[h].atomType) <==>
      HasType(m, hier, t, sub, h)
  {
  }
}
