/** The indexes of the atom table (opencog/atomspace/NodeIndex.cc, LinkIndex.cc, TypeIndex.cc,
    TargetTypeIndex.cc, ImportanceIndex.cc, FixedIntegerIndex.cc). */
module AtomIndexes {
  import opened Wrappers
  import opened Handles
  import opened Atoms
  import opened AtomGraph
  import opened TLBs

  datatype IndexError = IndexOutOfBounds

  // ------------------------------------------------------- one map for every atom type

  /** The maps hold the live atoms under their content: their type and what else tells them apart. */
  ghost predicate EntriesOk<K>(idx: seq<map<K, Handle>>, live: set<Handle>, content: map<Handle, (nat, K)>) {
    && (forall t, k :: 0 <= t < |idx| && k in idx[t] ==>
          idx[t][k] in live && idx[t][k] in content && content[idx[t][k]] == (t, k))
    && (forall h :: h in live && h in content ==> HasEntry(idx, content[h].0, content[h].1, h))
  }

  ghost predicate HasEntry<K>(idx: seq<map<K, Handle>>, t: nat, k: K, h: Handle) {
    t < |idx| && k in idx[t] && idx[t][k] == h
  }

  ghost function NodeContent(g: Graph): map<Handle, (nat, string)> {
    map h | h in g && g[h].NodeKey? :: (g[h].atomType, g[h].name)
  }

  ghost function LinkContent(g: Graph): map<Handle, (nat, seq<Handle>)> {
    map h | h in g && g[h].LinkKey? :: (g[h].atomType, g[h].outgoing)
  }

  lemma EntriesInsert<K>(idx: seq<map<K, Handle>>, live: set<Handle>, content: map<Handle, (nat, K)>, h: Handle)
    requires EntriesOk(idx, live, content) && h !in live && h in content && content[h].0 < |idx|
    requires forall x :: x in live && x in content ==> content[x] != content[h]
    ensures content[h].1 !in idx[content[h].0]
    ensures EntriesOk(idx[content[h].0 := idx[content[h].0][content[h].1 := h]], live + {h}, content)
  {
    var t, k := content[h].0, content[h].1;
    assert content[h] == (t, k);
    var m: map<K, Handle> := idx[t][k := h];
    var idx' := idx[t := m];
    forall x | x in live + {h} && x in content ensures HasEntry(idx', content[x].0, content[x].1, x) {
      assert x != h ==> HasEntry(idx, content[x].0, content[x].1, x) && content[x] != (t, k);
      assert (content[x].0, content[x].1) == content[x];
    }
  }

  lemma EntriesErase<K>(idx: seq<map<K, Handle>>, live: set<Handle>, content: map<Handle, (nat, K)>, h: Handle)
    requires EntriesOk(idx, live, content) && h in live && h in content
    ensures HasEntry(idx, content[h].0, content[h].1, h)
    ensures EntriesOk(idx[content[h].0 := idx[content[h].0] - {content[h].1}], live - {h}, content)
  {
    var t, k := content[h].0, content[h].1;
    assert HasEntry(idx, t, k, h);
    var idx' := idx[t := idx[t] - {k}];
    forall x | x in live - {h} && x in content ensures HasEntry(idx', content[x].0, content[x].1, x) {
      assert HasEntry(idx, content[x].0, content[x].1, x);
      assert content[x].0 == t ==> content[x].1 != k;
    }
    forall s, j | 0 <= s < |idx'| && j in idx'[s] ensures idx'[s][j] in live - {h} {
      assert j in idx[s] && idx'[s][j] == idx[s][j];
      assert content[idx[s][j]] == (s, j);
    }
  }

  /** Atoms without content of this kind, and content of atoms that are not live, do not matter. */
  lemma EntriesSame<K>(idx: seq<map<K, Handle>>, live: set<Handle>, content: map<Handle, (nat, K)>,
                       live': set<Handle>, content': map<Handle, (nat, K)>)
    requires EntriesOk(idx, live, content)
    requires forall h :: (h in live && h in content) <==> (h in live' && h in content')
    requires forall h :: h in live && h in content ==> content[h] == content'[h]
    ensures EntriesOk(idx, live', content')
  {
  }

  ghost function Survivors<K>(m: map<K, Handle>, gone: set<Handle>): map<K, Handle> {
    map k | k in m && m[k] !in gone :: m[k]
  }

  lemma EntriesFilter<K>(idx: seq<map<K, Handle>>, idx': seq<map<K, Handle>>, live: set<Handle>,
                         content: map<Handle, (nat, K)>, gone: set<Handle>)
    requires EntriesOk(idx, live, content) && |idx'| == |idx|
    requires forall t :: 0 <= t < |idx| ==> idx'[t] == Survivors(idx[t], gone)
    ensures EntriesOk(idx', live - gone, content)
  {
    forall x | x in live - gone && x in content ensures HasEntry(idx', content[x].0, content[x].1, x) {
      assert HasEntry(idx, content[x].0, content[x].1, x);
    }
    forall t, k | 0 <= t < |idx'| && k in idx'[t]
      ensures idx'[t][k] in live - gone && idx'[t][k] in content && content[idx'[t][k]] == (t, k)
    {
      assert k in idx[t] && idx'[t][k] == idx[t][k];
    }
  }

  /** Keeps the entries of the atoms that did not decay. */
  method FilterEntries<K(==)>(m: map<K, Handle>, tlb: TLB) returns (r: map<K, Handle>)
    requires tlb.Mirrors() && forall k :: k in m ==> m[k] in tlb.handleMap
    ensures r == Survivors(m, tlb.decayed)
  {
    hide Numbered, IncomingMirrored, AttentionMirrored, MarkedMirrored;
    r := m;
    var keys := m.Keys;
    while keys != {}
      invariant keys <= m.Keys && r.Keys <= m.Keys
      invariant forall k :: k in r ==> r[k] == m[k]
      invariant forall k :: k in keys ==> k in r
      invariant forall k :: k in m && k !in keys ==> (k in r <==> m[k] !in tlb.decayed)
      decreases keys
    {
      var k :| k in keys;
      keys := keys - {k};
      if tlb.handleMap[m[k]].removedByDecay {
        r := r - {k};
      }
    }
  }

  class NodeIndex {
    var idx: seq<map<string, Handle>>

    constructor (types: nat)
      ensures |idx| == types && forall t :: 0 <= t < types ==> idx[t] == map[]
    {
      idx := seq(types, _ => map[]);
    }

    ghost predicate Ok(g: Graph, live: set<Handle>)
      reads this`idx
    {
      EntriesOk(idx, live, NodeContent(g))
    }

    method InsertHandle(tlb: TLB, h: Handle, ghost live: set<Handle>)
      requires h in tlb.handleMap && tlb.handleMap[h].key.atomType < |idx|
      requires Ok(GraphOf(tlb.handleMap), live) && h !in live && live <= tlb.handleMap.Keys
      requires forall x :: x in live ==> GraphOf(tlb.handleMap)[x] != GraphOf(tlb.handleMap)[h]
      modifies this`idx
      ensures |idx| == |old(idx)| && Ok(GraphOf(tlb.handleMap), live + {h})
    {
      hide EntriesOk;
      var key := tlb.handleMap[h].key;
      if key.NodeKey? {
        EntriesInsert(idx, live, NodeContent(GraphOf(tlb.handleMap)), h);
        if key.name !in idx[key.atomType] {
          var names: map<string, Handle> := idx[key.atomType][key.name := h];
          idx := idx[key.atomType := names];
        }
      } else {
        EntriesSame(idx, live, NodeContent(GraphOf(tlb.handleMap)), live + {h}, NodeContent(GraphOf(tlb.handleMap)));
      }
    }

    method RemoveHandle(tlb: TLB, h: Handle, ghost live: set<Handle>)
      requires h in tlb.handleMap && tlb.handleMap[h].key.atomType < |idx|
      requires Ok(GraphOf(tlb.handleMap), live) && h in live
      modifies this`idx
      ensures |idx| == |old(idx)| && Ok(GraphOf(tlb.handleMap), live - {h})
    {
      hide EntriesOk;
      var key := tlb.handleMap[h].key;
      if key.NodeKey? {
        EntriesErase(idx, live, NodeContent(GraphOf(tlb.handleMap)), h);
        idx := idx[key.atomType := idx[key.atomType] - {key.name}];
      } else {
        EntriesSame(idx, live, NodeContent(GraphOf(tlb.handleMap)), live - {h}, NodeContent(GraphOf(tlb.handleMap)));
      }
    }

    method RemoveDecayed(tlb: TLB, ghost live: set<Handle>)
      requires tlb.Mirrors() && Ok(GraphOf(tlb.handleMap), live) && live <= tlb.handleMap.Keys
      modifies this`idx
      ensures |idx| == |old(idx)| && Ok(GraphOf(tlb.handleMap), live - tlb.decayed)
    {
      hide Numbered, IncomingMirrored, AttentionMirrored, MarkedMirrored, DecayedMirrored, HasEntry;
      for t := 0 to |idx|
        invariant |idx| == |old(idx)|
        invariant forall s :: 0 <= s < t ==> idx[s] == Survivors(old(idx)[s], tlb.decayed)
        invariant forall s :: t <= s < |idx| ==> idx[s] == old(idx)[s]
      {
        var m := FilterEntries(idx[t], tlb);
        idx := idx[t := m];
      }
      EntriesFilter(old(idx), idx, live, NodeContent(GraphOf(tlb.handleMap)), tlb.decayed);
    }

    /** The handle of the node of this type and name, if there is one. */
    method GetHandle(t: nat, name: string, ghost g: Graph, ghost live: set<Handle>)
      returns (r: Result<Handle, IndexError>)
      requires Ok(g, live) && live <= g.Keys && UNDEFINED_HANDLE !in live
      ensures t >= |idx| ==> r == Failure(IndexOutOfBounds)
      ensures t < |idx| ==> r.Success?
      ensures t < |idx| ==> forall h :: h in live ==> (g[h] == NodeKey(t, name) <==> r.value == h)
      ensures t < |idx| && r.value != UNDEFINED_HANDLE ==> r.value in live
    {
      if t >= |idx| {
        return Failure(IndexOutOfBounds);
      }
      forall h | h in live && h in NodeContent(g) ensures HasEntry(idx, g[h].atomType, g[h].name, h) {
        assert HasEntry(idx, NodeContent(g)[h].0, NodeContent(g)[h].1, h);
      }
      return Success(if name in idx[t] then idx[t][name] else UNDEFINED_HANDLE);
    }
  }

  class LinkIndex {
    var idx: seq<map<seq<Handle>, Handle>>

    constructor (types: nat)
      ensures |idx| == types && forall t :: 0 <= t < types ==> idx[t] == map[]
    {
      idx := seq(types, _ => map[]);
    }

    ghost predicate Ok(g: Graph, live: set<Handle>)
      reads this`idx
    {
      EntriesOk(idx, live, LinkContent(g))
    }

    method InsertHandle(tlb: TLB, h: Handle, ghost live: set<Handle>)
      requires h in tlb.handleMap && tlb.handleMap[h].key.atomType < |idx|
      requires Ok(GraphOf(tlb.handleMap), live) && h !in live && live <= tlb.handleMap.Keys
      requires forall x :: x in live ==> GraphOf(tlb.handleMap)[x] != GraphOf(tlb.handleMap)[h]
      modifies this`idx
      ensures |idx| == |old(idx)| && Ok(GraphOf(tlb.handleMap), live + {h})
    {
      hide EntriesOk;
      var key := tlb.handleMap[h].key;
      if key.LinkKey? {
        EntriesInsert(idx, live, LinkContent(GraphOf(tlb.handleMap)), h);
        if key.outgoing !in idx[key.atomType] {
          var links: map<seq<Handle>, Handle> := idx[key.atomType][key.outgoing := h];
          idx := idx[key.atomType := links];
        }
      } else {
        EntriesSame(idx, live, LinkContent(GraphOf(tlb.handleMap)), live + {h}, LinkContent(GraphOf(tlb.handleMap)));
      }
    }

    method RemoveHandle(tlb: TLB, h: Handle, ghost live: set<Handle>)
      requires h in tlb.handleMap && tlb.handleMap[h].key.atomType < |idx|
      requires Ok(GraphOf(tlb.handleMap), live) && h in live
      modifies this`idx
      ensures |idx| == |old(idx)| && Ok(GraphOf(tlb.handleMap), live - {h})
    {
      hide EntriesOk;
      var key := tlb.handleMap[h].key;
      if key.LinkKey? {
        EntriesErase(idx, live, LinkContent(GraphOf(tlb.handleMap)), h);
        idx := idx[key.atomType := idx[key.atomType] - {key.outgoing}];
      } else {
        EntriesSame(idx, live, LinkContent(GraphOf(tlb.handleMap)), live - {h}, LinkContent(GraphOf(tlb.handleMap)));
      }
    }

    method RemoveDecayed(tlb: TLB, ghost live: set<Handle>)
      requires tlb.Mirrors() && Ok(GraphOf(tlb.handleMap), live) && live <= tlb.handleMap.Keys
      modifies this`idx
      ensures |idx| == |old(idx)| && Ok(GraphOf(tlb.handleMap), live - tlb.decayed)
    {
      hide Numbered, IncomingMirrored, AttentionMirrored, MarkedMirrored, DecayedMirrored, HasEntry;
      for t := 0 to |idx|
        invariant |idx| == |old(idx)|
        invariant forall s :: 0 <= s < t ==> idx[s] == Survivors(old(idx)[s], tlb.decayed)
        invariant forall s :: t <= s < |idx| ==> idx[s] == old(idx)[s]
      {
        var m := FilterEntries(idx[t], tlb);
        idx := idx[t := m];
      }
      EntriesFilter(old(idx), idx, live, LinkContent(GraphOf(tlb.handleMap)), tlb.decayed);
    }

    /** The handle of the link of this type that holds exactly these handles, in this order. */
    method GetHandle(t: nat, outgoing: seq<Handle>, ghost g: Graph, ghost live: set<Handle>)
      returns (r: Result<Handle, IndexError>)
      requires Ok(g, live) && live <= g.Keys && UNDEFINED_HANDLE !in live
      ensures t >= |idx| ==> r == Failure(IndexOutOfBounds)
      ensures t < |idx| ==> r.Success?
      ensures t < |idx| ==> forall h :: h in live ==> (g[h] == LinkKey(t, outgoing) <==> r.value == h)
      ensures t < |idx| && r.value != UNDEFINED_HANDLE ==> r.value in live
    {
      if t >= |idx| {
        return Failure(IndexOutOfBounds);
      }
      forall h | h in live && h in LinkContent(g) ensures HasEntry(idx, g[h].atomType, g[h].outgoing, h) {
        assert HasEntry(idx, LinkContent(g)[h].0, LinkContent(g)[h].1, h);
      }
      return Success(if outgoing in idx[t] then idx[t][outgoing] else UNDEFINED_HANDLE);
    }
  }

  // ------------------------------------------------------- bins of handles

  /** Every live atom is in the bins it belongs to, and in no others. */
  ghost predicate BinsOk(idx: seq<set<Handle>>, live: set<Handle>, bins: map<Handle, set<nat>>) {
    && live <= bins.Keys
    && (forall h, b :: h in live && b in bins[h] ==> b < |idx|)
    && (forall b, h :: 0 <= b < |idx| ==> (h in idx[b] <==> h in live && b in bins[h]))
  }

  ghost function TypeBins(g: Graph): map<Handle, set<nat>> {
    map h | h in g :: {g[h].atomType}
  }

  ghost function TypesOf(g: Graph, s: seq<Handle>): set<nat> {
    set i | 0 <= i < |s| && s[i] in g :: g[s[i]].atomType
  }

  ghost function TargetBins(g: Graph): map<Handle, set<nat>> {
    map h | h in g :: TypesOf(g, Outgoing(g[h]))
  }

  function ImportanceBin(sti: Short): nat {
    sti + 32768
  }

  ghost function ImportanceBins(avs: map<Handle, AttentionValue>): map<Handle, set<nat>> {
    map h | h in avs :: {ImportanceBin(avs[h].sti)}
  }

  /** The bins are determined by what they are to hold. */
  lemma BinsUnique(idx: seq<set<Handle>>, idx': seq<set<Handle>>, live: set<Handle>, bins: map<Handle, set<nat>>)
    requires BinsOk(idx, live, bins) && BinsOk(idx', live, bins) && |idx| == |idx'|
    ensures idx == idx'
  {
    forall b | 0 <= b < |idx| ensures idx[b] == idx'[b] {
      assert forall h :: h in idx[b] <==> h in live && b in bins[h];
      assert forall h :: h in idx'[b] <==> h in live && b in bins[h];
    }
  }

  /** A handle goes into one more bin. */
  lemma BinsAdd(idx: seq<set<Handle>>, live: set<Handle>, bins: map<Handle, set<nat>>, h: Handle, has: set<nat>, b: nat)
    requires BinsOk(idx, live, bins[h := has]) && h in live && b < |idx|
    ensures BinsOk(idx[b := idx[b] + {h}], live, bins[h := has + {b}])
  {
    var idx', bins' := idx[b := idx[b] + {h}], bins[h := has + {b}];
    forall c, x | 0 <= c < |idx'| ensures x in idx'[c] <==> x in live && c in bins'[x] {
      assert x in idx[c] <==> x in live && c in bins[h := has][x];
    }
    forall x, c | x in live && c in bins'[x] ensures c < |idx'| {
      assert c in bins[h := has][x] || c == b;
    }
  }

  lemma BinsDrop(idx: seq<set<Handle>>, live: set<Handle>, bins: map<Handle, set<nat>>, h: Handle, has: set<nat>,
                 b: nat)
    requires BinsOk(idx, live, bins[h := has]) && h in live && b < |idx|
    ensures BinsOk(idx[b := idx[b] - {h}], live, bins[h := has - {b}])
  {
    var idx', bins' := idx[b := idx[b] - {h}], bins[h := has - {b}];
    forall c, x | 0 <= c < |idx'| ensures x in idx'[c] <==> x in live && c in bins'[x] {
      assert x in idx[c] <==> x in live && c in bins[h := has][x];
    }
    forall x, c | x in live && c in bins'[x] ensures c < |idx'| {
      assert c in bins[h := has][x] || c == b;
    }
  }

  /** A handle in no bin is as good as one that is not there. */
  lemma BinsEnter(idx: seq<set<Handle>>, live: set<Handle>, bins: map<Handle, set<nat>>, h: Handle)
    requires BinsOk(idx, live, bins) && h !in live
    ensures BinsOk(idx, live + {h}, bins[h := {}])
  {
  }

  lemma BinsLeave(idx: seq<set<Handle>>, live: set<Handle>, bins: map<Handle, set<nat>>, h: Handle)
    requires BinsOk(idx, live, bins[h := {}]) && h in bins
    ensures BinsOk(idx, live - {h}, bins)
  {
    assert bins[h := {}].Keys == bins.Keys;
  }

  lemma BinsSame(idx: seq<set<Handle>>, live: set<Handle>, bins: map<Handle, set<nat>>, bins': map<Handle, set<nat>>)
    requires BinsOk(idx, live, bins) && live <= bins'.Keys
    requires forall h :: h in live ==> bins'[h] == bins[h]
    ensures BinsOk(idx, live, bins')
  {
  }

  lemma BinsFilter(idx: seq<set<Handle>>, idx': seq<set<Handle>>, live: set<Handle>, bins: map<Handle, set<nat>>,
                   gone: set<Handle>)
    requires BinsOk(idx, live, bins) && |idx'| == |idx|
    requires forall b :: 0 <= b < |idx| ==> idx'[b] == idx[b] - gone
    ensures BinsOk(idx', live - gone, bins)
  {
  }

  method FilterBin(s: set<Handle>, tlb: TLB) returns (r: set<Handle>)
    requires tlb.Mirrors() && s <= tlb.handleMap.Keys
    ensures r == s - tlb.decayed
  {
    hide Numbered, IncomingMirrored, AttentionMirrored, MarkedMirrored;
    r := s;
    var todo := s;
    while todo != {}
      invariant todo <= r <= s
      invariant forall h :: h in s - todo ==> (h in r <==> h !in tlb.decayed)
      decreases todo
    {
      var h :| h in todo;
      todo := todo - {h};
      if tlb.handleMap[h].removedByDecay {
        r := r - {h};
      }
    }
  }

  method FilterBins(idx: seq<set<Handle>>, tlb: TLB, ghost live: set<Handle>, ghost bins: map<Handle, set<nat>>)
    returns (r: seq<set<Handle>>)
    requires tlb.Mirrors() && BinsOk(idx, live, bins) && live <= tlb.handleMap.Keys
    ensures |r| == |idx| && BinsOk(r, live - tlb.decayed, bins)
  {
    hide Numbered, IncomingMirrored, AttentionMirrored, MarkedMirrored, DecayedMirrored;
    r := idx;
    for b := 0 to |idx|
      invariant |r| == |idx|
      invariant forall c :: 0 <= c < b ==> r[c] == idx[c] - tlb.decayed
      invariant forall c :: b <= c < |idx| ==> r[c] == idx[c]
    {
      var bin := FilterBin(r[b], tlb);
      r := r[b := bin];
    }
    BinsFilter(idx, r, live, bins, tlb.decayed);
  }

  /** Bins by atom type; the last bin stays empty. */
  class TypeIndex {
    var idx: seq<set<Handle>>

    constructor (types: nat)
      ensures |idx| == types + 1 && forall b :: 0 <= b <= types ==> idx[b] == {}
    {
      idx := seq(types + 1, _ => {});
    }

    ghost predicate Ok(g: Graph, live: set<Handle>)
      reads this`idx
    {
      BinsOk(idx, live, TypeBins(g))
    }

    method InsertHandle(tlb: TLB, h: Handle, ghost live: set<Handle>)
      requires h in tlb.handleMap && tlb.handleMap[h].key.atomType < |idx|
      requires Ok(GraphOf(tlb.handleMap), live) && h !in live
      modifies this`idx
      ensures |idx| == |old(idx)| && Ok(GraphOf(tlb.handleMap), live + {h})
    {
      hide BinsOk;
      var t := tlb.handleMap[h].key.atomType;
      ghost var bins := TypeBins(GraphOf(tlb.handleMap));
      BinsEnter(idx, live, bins, h);
      BinsAdd(idx, live + {h}, bins, h, {}, t);
      assert bins[h] == {} + {t};
      assert bins[h := bins[h]] == bins;
      idx := idx[t := idx[t] + {h}];
    }

    method RemoveHandle(tlb: TLB, h: Handle, ghost live: set<Handle>)
      requires h in tlb.handleMap && tlb.handleMap[h].key.atomType < |idx|
      requires Ok(GraphOf(tlb.handleMap), live) && h in live
      modifies this`idx
      ensures |idx| == |old(idx)| && Ok(GraphOf(tlb.handleMap), live - {h})
    {
      hide BinsOk;
      var t := tlb.handleMap[h].key.atomType;
      ghost var bins := TypeBins(GraphOf(tlb.handleMap));
      assert bins == bins[h := {t}];
      BinsDrop(idx, live, bins, h, {t}, t);
      assert {t} - {t} == {};
      idx := idx[t := idx[t] - {h}];
      BinsLeave(idx, live, bins, h);
    }

    method RemoveDecayed(tlb: TLB, ghost live: set<Handle>)
      requires tlb.Mirrors() && Ok(GraphOf(tlb.handleMap), live) && live <= tlb.handleMap.Keys
      modifies this`idx
      ensures |idx| == |old(idx)| && Ok(GraphOf(tlb.handleMap), live - tlb.decayed)
    {
      hide BinsOk, Numbered, IncomingMirrored, AttentionMirrored, MarkedMirrored, DecayedMirrored;
      idx := FilterBins(idx, tlb, live, TypeBins(GraphOf(tlb.handleMap)));
    }
  }

  /** Bins by the types of the atoms a link names: a link is in a bin once, however many targets of
      that type it has. */
  class TargetTypeIndex {
    var idx: seq<set<Handle>>

    constructor (types: nat)
      ensures |idx| == types + 1 && forall b :: 0 <= b <= types ==> idx[b] == {}
    {
      idx := seq(types + 1, _ => {});
    }

    ghost predicate Ok(g: Graph, live: set<Handle>)
      reads this`idx
    {
      BinsOk(idx, live, TargetBins(g))
    }

    method InsertHandle(tlb: TLB, h: Handle, ghost live: set<Handle>)
      requires h in tlb.handleMap && Ok(GraphOf(tlb.handleMap), live) && h !in live
      requires forall t :: t in Outgoing(GraphOf(tlb.handleMap)[h]) ==>
        t in tlb.handleMap && tlb.handleMap[t].key.atomType < |idx|
      modifies this`idx
      ensures |idx| == |old(idx)| && Ok(GraphOf(tlb.handleMap), live + {h})
    {
      hide BinsOk, TypesOf;
      var key := tlb.handleMap[h].key;
      ghost var g, bins := GraphOf(tlb.handleMap), TargetBins(GraphOf(tlb.handleMap));
      BinsEnter(idx, live, bins, h);
      NoTypes(g);
      if key.LinkKey? {
        var outgoing := key.outgoing;
        var done: set<nat> := {};
        for i := 0 to |outgoing|
          invariant |idx| == |old(idx)|
          invariant done == TypesOf(g, outgoing[..i])
          invariant BinsOk(idx, live + {h}, bins[h := done])
        {
          var t := tlb.handleMap[outgoing[i]].key.atomType;
          OneMoreType(g, outgoing, i);
          if t !in done {
            BinsAdd(idx, live + {h}, bins, h, done, t);
            idx := idx[t := idx[t] + {h}];
            done := done + {t};
          }
        }
        assert outgoing[..|outgoing|] == outgoing;
        assert bins[h := done] == bins;
      } else {
        assert bins[h := {}] == bins;
      }
    }

    method RemoveHandle(tlb: TLB, h: Handle, ghost live: set<Handle>)
      requires h in tlb.handleMap && Ok(GraphOf(tlb.handleMap), live) && h in live
      requires forall t :: t in Outgoing(GraphOf(tlb.handleMap)[h]) ==>
        t in tlb.handleMap && tlb.handleMap[t].key.atomType < |idx|
      modifies this`idx
      ensures |idx| == |old(idx)| && Ok(GraphOf(tlb.handleMap), live - {h})
    {
      hide BinsOk, TypesOf;
      var key := tlb.handleMap[h].key;
      ghost var g, bins := GraphOf(tlb.handleMap), TargetBins(GraphOf(tlb.handleMap));
      NoTypes(g);
      if key.LinkKey? {
        var outgoing := key.outgoing;
        var done: set<nat> := {};
        assert bins[h] - {} == bins[h];
        assert bins[h := bins[h]] == bins;
        for i := 0 to |outgoing|
          invariant |idx| == |old(idx)|
          invariant done == TypesOf(g, outgoing[..i])
          invariant BinsOk(idx, live, bins[h := bins[h] - done])
        {
          var t := tlb.handleMap[outgoing[i]].key.atomType;
          OneMoreType(g, outgoing, i);
          if t !in done {
            BinsDrop(idx, live, bins, h, bins[h] - done, t);
            assert bins[h] - done - {t} == bins[h] - (done + {t});
            idx := idx[t := idx[t] - {h}];
            done := done + {t};
          }
        }
        assert outgoing[..|outgoing|] == outgoing;
        assert bins[h] - done == {};
      } else {
        assert bins == bins[h := {}];
      }
      BinsLeave(idx, live, bins, h);
    }

    method RemoveDecayed(tlb: TLB, ghost live: set<Handle>)
      requires tlb.Mirrors() && Ok(GraphOf(tlb.handleMap), live) && live <= tlb.handleMap.Keys
      modifies this`idx
      ensures |idx| == |old(idx)| && Ok(GraphOf(tlb.handleMap), live - tlb.decayed)
    {
      hide BinsOk, Numbered, IncomingMirrored, AttentionMirrored, MarkedMirrored, DecayedMirrored;
      idx := FilterBins(idx, tlb, live, TargetBins(GraphOf(tlb.handleMap)));
    }
  }

  lemma NoTypes(g: Graph)
    ensures TypesOf(g, []) == {}
    ensures forall s: seq<Handle> {:trigger s[..0]} :: TypesOf(g, s[..0]) == {}
  {
  }

  lemma OneMoreType(g: Graph, s: seq<Handle>, i: nat)
    requires i < |s| && s[i] in g
    ensures TypesOf(g, s[..i + 1]) == TypesOf(g, s[..i]) + {g[s[i]].atomType}
    ensures g[s[i]].atomType in TypesOf(g, s)
  {
    forall t ensures t in TypesOf(g, s[..i + 1]) <==> t in TypesOf(g, s[..i]) + {g[s[i]].atomType} {
      if t in TypesOf(g, s[..i]) {
        var k :| 0 <= k < i && s[..i][k] in g && g[s[..i][k]].atomType == t;
        assert s[..i + 1][k] == s[..i][k];
      }
      assert s[..i + 1][i] == s[i];
      if t in TypesOf(g, s[..i + 1]) {
        var k :| 0 <= k < i + 1 && s[..i + 1][k] in g && g[s[..i + 1][k]].atomType == t;
        assert k < i ==> s[..i][k] == s[k];
      }
    }
  }
}
