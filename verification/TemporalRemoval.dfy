/** What a removal takes, and what becomes of the tail pointers, as values
    (opencog/atomspace/TemporalTable.cc). */
module TemporalRemovals {
  import opened Temporals
  import opened TemporalEntries
  import opened Handles
  import opened TemporalRelation
  import opened TemporalCriteria
  import opened TemporalScan
  import opened TemporalResults
  import opened TemporalSteps

  /** The pairs that a removal takes: of one handle, or of all handles. */
  ghost function Gone(pairs: set<(Handle, Time)>, h: Handle, t: Temporal, c: TemporalRelationship): set<(Handle, Time)>
    requires t.Proper() || t == UNDEFINED_TEMPORAL
  {
    if h == UNDEFINED_HANDLE then PairsAt(pairs, Selected(AllTimes(pairs), t, c))
    else PairsWith(h, Selected(TimesOf(pairs, h), t, c))
  }

  /** The last pair of `g` goes. */
  ghost predicate LastGone(pairs: set<(Handle, Time)>, g: Handle, gone: set<(Handle, Time)>) {
    exists u: Time :: (g, u) in gone && forall v :: v in TimesOf(pairs, g) ==> Rank(v) <= Rank(u)
  }

  ghost predicate AllGone(pairs: set<(Handle, Time)>, g: Handle, gone: set<(Handle, Time)>) {
    forall v :: v in TimesOf(pairs, g) ==> (g, v) in gone
  }

  /** The tail pointer of `g`, right so far, is left pointing to a removed cell. For one handle this
      happens with the criteria for the previous time, which do not look after it; for all handles, when
      something is left of the list, since each time is removed on its own and the tail is looked for at
      the head. */
  ghost predicate Stranded(pairs: set<(Handle, Time)>, right: set<Handle>, h: Handle, t: Temporal,
                           c: TemporalRelationship, g: Handle)
    requires t.Proper() || t == UNDEFINED_TEMPORAL
  {
    var gone := Gone(pairs, h, t, c);
    && g in right && LastGone(pairs, g, gone)
    && if h == UNDEFINED_HANDLE then !AllGone(pairs, g, gone) else OnlyRemembers(t, c)
  }

  /** How the tail pointers come out of a removal: right ones stay right unless the last pair of their
      handle goes; and lost are those that were and those that are stranded now. */
  ghost predicate TailsFollow(pairs: set<(Handle, Time)>, right: set<Handle>, lost: set<Handle>, h: Handle, t: Temporal,
                              c: TemporalRelationship, right': set<Handle>, lost': set<Handle>)
    requires t.Proper() || t == UNDEFINED_TEMPORAL
  {
    && (forall g :: g in right' <==> g in right && !LastGone(pairs, g, Gone(pairs, h, t, c)))
    && (forall g :: g in lost' <==> g in lost || Stranded(pairs, right, h, t, c, g))
  }

  /** A tail pointer that is right points to the last time of its handle. */
  lemma TailTime(tails: map<Handle, TemporalEntry>, lists: map<Handle, seq<TemporalEntry>>, m: map<Time, set<Handle>>,
                 g: Handle, gone: set<(Handle, Time)>)
    requires ListsOk(lists, m) && TailRight(tails, lists, g) && gone <= Pairs(m)
    ensures Related(m, g, tails[g].time)
    ensures forall v :: Related(m, g, v) ==> Rank(v) <= Rank(tails[g].time)
    ensures LastGone(Pairs(m), g, gone) <==> (g, tails[g].time) in gone
  {
    hide Rank;
    var nodes, u := CellsOf(lists, g), tails[g].time;
    assert ListOk(m, g, nodes);
    assert nodes[|nodes| - 1] in nodes && HasTime(nodes, u);
    forall v | Related(m, g, v) ensures Rank(v) <= Rank(u) {
      assert HasTime(nodes, v);
      var i :| 0 <= i < |nodes| && nodes[i].time == v;
    }
    hide ListsOk, ListOk, TailRight, Ascending, HasTime;
    forall v ensures v in TimesOf(Pairs(m), g) <==> Related(m, g, v) {
      assert Related(m, g, v) ==> (g, v) in Pairs(m);
    }
    if LastGone(Pairs(m), g, gone) {
      var w: Time :| (g, w) in gone && forall v :: v in TimesOf(Pairs(m), g) ==> Rank(v) <= Rank(w);
      assert Related(m, g, w);
      RankFields(u, w);
    }
  }

  // ------------------------------------------------------- any removal

  /** The lists hold only cells that they held. */
  ghost predicate Fewer(lists: map<Handle, seq<TemporalEntry>>, lists': map<Handle, seq<TemporalEntry>>) {
    forall g, x :: x in CellsOf(lists', g) ==> x in CellsOf(lists, g)
  }

  /** Which tail pointers a removal keeps: right ones unless the last pair of their handle goes without
      stranding them, and lost ones. */
  ghost predicate TailsKept(pairs: set<(Handle, Time)>, tails0: map<Handle, TemporalEntry>,
                            lists0: map<Handle, seq<TemporalEntry>>, h: Handle, t: Temporal, c: TemporalRelationship,
                            tails: map<Handle, TemporalEntry>)
    requires t.Proper() || t == UNDEFINED_TEMPORAL
  {
    && (forall g :: g in tails ==> g in tails0 && tails[g] == tails0[g])
    && (forall g :: TailLost(tails0, lists0, g) ==> g in tails)
    && (forall g :: TailRight(tails0, lists0, g) ==>
          (g in tails <==>
             (LastGone(pairs, g, Gone(pairs, h, t, c)) ==>
                Stranded(pairs, RightTailsOf(tails0, lists0), h, t, c, g))))
  }

  /** What becomes of a right tail pointer that is kept: it is right as long as its time stays. */
  lemma KeptTail(tails0: map<Handle, TemporalEntry>, lists0: map<Handle, seq<TemporalEntry>>,
                 m0: map<Time, set<Handle>>,
                 tails: map<Handle, TemporalEntry>, lists: map<Handle, seq<TemporalEntry>>, m: map<Time, set<Handle>>,
                 g: Handle)
    requires ListsOk(lists0, m0) && ListsOk(lists, m) && Fewer(lists0, lists)
    requires TailRight(tails0, lists0, g) && g in tails && tails[g] == tails0[g]
    ensures TailRight(tails, lists, g) <==> Related(m, g, tails[g].time)
    ensures TailLost(tails, lists, g) <==> !Related(m, g, tails[g].time)
  {
    hide Rank, ListsOk, Fewer;
    var cs, tl := CellsOf(lists, g), tails[g];
    LastIn(lists0, m0, tails0, lists, g);
    CellTimes(lists, m, g);
    if Related(m, g, tl.time) {
      var i := CellAt(lists, m, g, tl.time);
      assert Rank(cs[i].time) <= Rank(cs[|cs| - 1].time);
      RankFields(cs[|cs| - 1].time, tl.time);
      assert cs[i] in cs;
    }
  }

  lemma LostTail(tails0: map<Handle, TemporalEntry>, lists0: map<Handle, seq<TemporalEntry>>,
                 tails: map<Handle, TemporalEntry>, lists: map<Handle, seq<TemporalEntry>>, g: Handle)
    requires Fewer(lists0, lists) && TailLost(tails0, lists0, g) && g in tails && tails[g] == tails0[g]
    ensures TailLost(tails, lists, g) && !TailRight(tails, lists, g)
  {
  }

  /** Which tail pointers are right and which are lost in the end. */
  lemma TailsFollowed(tails0: map<Handle, TemporalEntry>, lists0: map<Handle, seq<TemporalEntry>>,
                      m0: map<Time, set<Handle>>, tails: map<Handle, TemporalEntry>,
                      lists: map<Handle, seq<TemporalEntry>>, m: map<Time, set<Handle>>,
                      h: Handle, t: Temporal, c: TemporalRelationship)
    requires t.Proper() || t == UNDEFINED_TEMPORAL
    requires ListsOk(lists0, m0) && ListsOk(lists, m) && Fewer(lists0, lists)
    requires Pairs(m) == Pairs(m0) - Gone(Pairs(m0), h, t, c)
    requires TailsKept(Pairs(m0), tails0, lists0, h, t, c, tails) && TailsSoundOf(tails0, lists0)
    ensures TailsSoundOf(tails, lists)
    ensures TailsFollow(Pairs(m0), RightTailsOf(tails0, lists0), LostTailsOf(tails0, lists0), h, t, c,
                        RightTailsOf(tails, lists), LostTailsOf(tails, lists))
  {
    hide Rank, ListsOk, Fewer, Gone, LastGone, AllGone;
    var pairs, gone, right := Pairs(m0), Gone(Pairs(m0), h, t, c), RightTailsOf(tails0, lists0);
    GoneIn(pairs, h, t, c);
    forall g | g in tails0
      ensures g in tails && TailRight(tails, lists, g) <==> g in right && !LastGone(pairs, g, gone)
      ensures g in tails && TailLost(tails, lists, g) <==>
        TailLost(tails0, lists0, g) || Stranded(pairs, right, h, t, c, g)
      ensures g in tails ==> TailRight(tails, lists, g) || TailLost(tails, lists, g)
    {
      TailFollowed(tails0, lists0, m0, tails, lists, m, h, t, c, g);
    }
    hide TailRight, TailLost, Stranded, Pairs;
  }

  lemma TailFollowed(tails0: map<Handle, TemporalEntry>, lists0: map<Handle, seq<TemporalEntry>>,
                     m0: map<Time, set<Handle>>, tails: map<Handle, TemporalEntry>,
                     lists: map<Handle, seq<TemporalEntry>>, m: map<Time, set<Handle>>,
                     h: Handle, t: Temporal, c: TemporalRelationship, g: Handle)
    requires t.Proper() || t == UNDEFINED_TEMPORAL
    requires ListsOk(lists0, m0) && ListsOk(lists, m) && Fewer(lists0, lists)
    requires Pairs(m) == Pairs(m0) - Gone(Pairs(m0), h, t, c)
    requires TailsKept(Pairs(m0), tails0, lists0, h, t, c, tails) && TailsSoundOf(tails0, lists0) && g in tails0
    ensures var pairs, right, gone := Pairs(m0), RightTailsOf(tails0, lists0), Gone(Pairs(m0), h, t, c);
      && (g in tails && TailRight(tails, lists, g) <==> g in right && !LastGone(pairs, g, gone))
      && (g in tails && TailLost(tails, lists, g) <==>
            TailLost(tails0, lists0, g) || Stranded(pairs, right, h, t, c, g))
      && (g in tails ==> TailRight(tails, lists, g) || TailLost(tails, lists, g))
  {
    hide Rank, ListsOk, Fewer, Gone, LastGone, AllGone, Pairs;
    var pairs, gone, right := Pairs(m0), Gone(Pairs(m0), h, t, c), RightTailsOf(tails0, lists0);
    GoneIn(pairs, h, t, c);
    if TailRight(tails0, lists0, g) {
      assert tails0[g] in CellsOf(lists0, g);
      TailTime(tails0, lists0, m0, g, gone);
      RelatedPairs(m0, g, tails0[g].time);
      RelatedPairs(m, g, tails0[g].time);
      if g in tails {
        KeptTail(tails0, lists0, m0, tails, lists, m, g);
      }
    } else {
      LostTail(tails0, lists0, tails, lists, g);
    }
  }

  // ------------------------------------------------------- removal for one handle

  /** Tail pointers while the list of `h` is scanned: taken away only with the tail cell. */
  ghost predicate TailsSoFar(tails0: map<Handle, TemporalEntry>, lists0: map<Handle, seq<TemporalEntry>>,
                             tails: map<Handle, TemporalEntry>, lists: map<Handle, seq<TemporalEntry>>, h: Handle)
  {
    && Fewer(lists0, lists)
    && (forall g :: g in tails ==> g in tails0 && tails[g] == tails0[g])
    && (forall g :: g in tails0 && g != h ==> g in tails)
    && (TailLost(tails0, lists0, h) ==> h in tails)
    && (TailRight(tails0, lists0, h) ==> (h in tails <==> HasTime(CellsOf(lists, h), tails0[h].time)))
  }

  lemma TailsAtFirst(tails: map<Handle, TemporalEntry>, lists: map<Handle, seq<TemporalEntry>>, h: Handle)
    ensures TailsSoFar(tails, lists, tails, lists, h)
  {
    var nodes := CellsOf(lists, h);
    assert nodes != [] ==> nodes[|nodes| - 1] in nodes;
  }

  lemma TailsNext(tails0: map<Handle, TemporalEntry>, lists0: map<Handle, seq<TemporalEntry>>,
                  tails: map<Handle, TemporalEntry>, lists: map<Handle, seq<TemporalEntry>>, h: Handle,
                  kept: seq<TemporalEntry>, x: TemporalEntry, rest: seq<TemporalEntry>, tailTe: TemporalEntry?)
    requires TailsSoFar(tails0, lists0, tails, lists, h) && tailTe == EntryOf(tails0, h)
    requires CellsOf(lists, h) == kept + [x] + rest && Ascending(CellsOf(lists, h)) && Ascending(CellsOf(lists0, h))
    ensures TailsSoFar(tails0, lists0, if tailTe == x then tails - {h} else tails, WithCells(lists, h, kept + rest), h)
  {
    hide Rank, Ascending;
    var nodes, r, lists' := kept + [x] + rest, kept + rest, WithCells(lists, h, kept + rest);
    FewerCells(lists, h, kept, x, rest);
    FewerStill(lists0, lists, lists');
    assert nodes[|kept|] == x && x in CellsOf(lists, h);
    if TailRight(tails0, lists0, h) {
      var nodes0 := CellsOf(lists0, h);
      SameTime(nodes0, x, nodes0[|nodes0| - 1]);
      DroppedTime(kept, x, rest);
    }
  }

  lemma FewerCells(lists: map<Handle, seq<TemporalEntry>>, h: Handle, kept: seq<TemporalEntry>, x: TemporalEntry,
                   rest: seq<TemporalEntry>)
    requires CellsOf(lists, h) == kept + [x] + rest
    ensures Fewer(lists, WithCells(lists, h, kept + rest))
    ensures CellsOf(WithCells(lists, h, kept + rest), h) == kept + rest
  {
    forall g ensures CellsOf(WithCells(lists, h, kept + rest), g) == if g == h then kept + rest else CellsOf(lists, g) {
    }
  }

  lemma FewerStill(lists0: map<Handle, seq<TemporalEntry>>, lists: map<Handle, seq<TemporalEntry>>,
                   lists': map<Handle, seq<TemporalEntry>>)
    requires Fewer(lists0, lists) && Fewer(lists, lists')
    ensures Fewer(lists0, lists')
  {
  }

  lemma SameTime(nodes: seq<TemporalEntry>, x: TemporalEntry, y: TemporalEntry)
    requires Ascending(nodes) && x in nodes && y in nodes
    ensures x.time == y.time <==> x == y
  {
    hide Rank;
    var i :| 0 <= i < |nodes| && nodes[i] == x;
    var j :| 0 <= j < |nodes| && nodes[j] == y;
    assert i < j ==> Rank(x.time) < Rank(y.time);
    assert j < i ==> Rank(y.time) < Rank(x.time);
  }

  lemma DroppedTime(kept: seq<TemporalEntry>, x: TemporalEntry, rest: seq<TemporalEntry>)
    requires Ascending(kept + [x] + rest)
    ensures forall u :: HasTime(kept + rest, u) <==> HasTime(kept + [x] + rest, u) && u != x.time
  {
    hide Rank;
    var nodes, q := kept + [x] + rest, |kept|;
    assert nodes[q] == x && RemoveAt(nodes, q) == kept + rest;
    HasTimeRemoved(nodes, q);
  }

  /** After the scan of a criterion that removes on its way. */
  lemma TailsScanned(tails0: map<Handle, TemporalEntry>, lists0: map<Handle, seq<TemporalEntry>>,
                     m0: map<Time, set<Handle>>, tails: map<Handle, TemporalEntry>,
                     lists: map<Handle, seq<TemporalEntry>>, m: map<Time, set<Handle>>,
                     h: Handle, t: Temporal, c: TemporalRelationship)
    requires h != UNDEFINED_HANDLE && (t.Proper() || t == UNDEFINED_TEMPORAL) && !OnlyRemembers(t, c)
    requires ListsOk(lists0, m0) && ListsOk(lists, m) && TailsSoFar(tails0, lists0, tails, lists, h)
    requires Pairs(m) == Pairs(m0) - Gone(Pairs(m0), h, t, c)
    ensures TailsKept(Pairs(m0), tails0, lists0, h, t, c, tails) && Fewer(lists0, lists)
  {
    hide Rank, Selected, ListsOk, Ascending, Pairs, HasTime, Fewer;
    var gone := Gone(Pairs(m0), h, t, c);
    GoneIn(Pairs(m0), h, t, c);
    forall g | TailRight(tails0, lists0, g) ensures g in tails <==> !LastGone(Pairs(m0), g, gone) {
      TailTime(tails0, lists0, m0, g, gone);
      if g == h {
        var u := tails0[h].time;
        RelatedPairs(m0, h, u);
        RelatedPairs(m, h, u);
        HandleList(lists, m, h);
      }
    }
  }

  /** After the one removal of a criterion that only remembers. */
  lemma TailsRemembered(pairs: set<(Handle, Time)>, tails: map<Handle, TemporalEntry>,
                        lists: map<Handle, seq<TemporalEntry>>, h: Handle, t: Temporal, c: TemporalRelationship)
    requires h != UNDEFINED_HANDLE && (t.Proper() || t == UNDEFINED_TEMPORAL) && OnlyRemembers(t, c)
    ensures TailsKept(pairs, tails, lists, h, t, c, tails)
  {
    hide Rank, Gone, LastGone, AllGone;
  }

  lemma GoneIn(pairs: set<(Handle, Time)>, h: Handle, t: Temporal, c: TemporalRelationship)
    requires t.Proper() || t == UNDEFINED_TEMPORAL
    ensures Gone(pairs, h, t, c) <= pairs
  {
    hide Rank, Holds;
  }

  lemma GoneOfHandle(pairs: set<(Handle, Time)>, h: Handle, t: Temporal, c: TemporalRelationship)
    requires h != UNDEFINED_HANDLE && (t.Proper() || t == UNDEFINED_TEMPORAL)
    ensures Gone(pairs, h, t, c) == PairsWith(h, Selected(TimesOf(pairs, h), t, c))
    ensures Gone(pairs, h, t, c) == {} <==> Selected(TimesOf(pairs, h), t, c) == {}
  {
    hide Rank, Selected, TimesOf;
    var chosen := Selected(TimesOf(pairs, h), t, c);
    if chosen != {} {
      var u :| u in chosen;
      assert (h, u) in PairsWith(h, chosen);
    }
  }

  lemma RelatedPairs(m: map<Time, set<Handle>>, g: Handle, u: Time)
    ensures Related(m, g, u) <==> (g, u) in Pairs(m)
  {
  }

  // ------------------------------------------------------- removal for all handles, one time after the other

  /** The list of `g` starts with its tail cell. */
  ghost predicate LoneTail(tails: map<Handle, TemporalEntry>, lists: map<Handle, seq<TemporalEntry>>, g: Handle) {
    g in tails && CellsOf(lists, g) != [] && tails[g] == CellsOf(lists, g)[0]
  }

  /** Handles of `hs` whose list is their tail cell alone lose their tail pointer. */
  ghost predicate LoneTailsGone(tails: map<Handle, TemporalEntry>, lists: map<Handle, seq<TemporalEntry>>,
                                hs: set<Handle>,
                                tails': map<Handle, TemporalEntry>)
  {
    && (forall g :: g in tails' <==> g in tails && !(g in hs && LoneTail(tails, lists, g)))
    && (forall g :: g in tails' ==> g in tails && tails'[g] == tails[g])
  }

  ghost predicate Covered(m: map<Time, set<Handle>>, g: Handle, times: set<Time>) {
    forall v :: Related(m, g, v) ==> v in times
  }

  /** The times `done` have been removed, one after the other, in ascending order. */
  ghost predicate Reduced(m0: map<Time, set<Handle>>, lists0: map<Handle, seq<TemporalEntry>>,
                          tails0: map<Handle, TemporalEntry>, m: map<Time, set<Handle>>,
                          lists: map<Handle, seq<TemporalEntry>>, tails: map<Handle, TemporalEntry>, done: set<Time>)
  {
    && m == m0 - done && Fewer(lists0, lists)
    && (forall g :: g in tails ==> g in tails0 && tails[g] == tails0[g])
    && (forall g :: TailLost(tails0, lists0, g) ==> g in tails)
    && (forall g :: TailRight(tails0, lists0, g) ==> (g in tails <==> !Covered(m0, g, done)))
  }

  lemma ReducedBegins(m: map<Time, set<Handle>>, lists: map<Handle, seq<TemporalEntry>>,
                      tails: map<Handle, TemporalEntry>)
    requires ListsOk(lists, m)
    ensures Reduced(m, lists, tails, m, lists, tails, {})
  {
    hide Rank, Ascending;
    assert m - {} == m;
    forall g | TailRight(tails, lists, g) ensures !Covered(m, g, {}) {
      TailTime(tails, lists, m, g, {});
    }
  }

  /** The tail cell is alone in the list exactly if nothing will be left of the list. */
  lemma LoneTailMeans(m0: map<Time, set<Handle>>, lists0: map<Handle, seq<TemporalEntry>>,
                      tails0: map<Handle, TemporalEntry>,
                      m: map<Time, set<Handle>>, lists: map<Handle, seq<TemporalEntry>>,
                      tails: map<Handle, TemporalEntry>,
                      done: set<Time>, u: Time, g: Handle)
    requires ListsOk(lists0, m0) && ListsOk(lists, m) && Reduced(m0, lists0, tails0, m, lists, tails, done)
    requires TailRight(tails0, lists0, g) && g in tails && Related(m, g, u)
    requires forall d :: d in done ==> Rank(d) < Rank(u)
    ensures LoneTail(tails, lists, g) <==> Covered(m0, g, done + {u})
  {
    hide Rank, ListsOk;
    var cs, tl := CellsOf(lists, g), tails0[g];
    TailTime(tails0, lists0, m0, g, {});
    HandleList(lists, m, g);
    LastIn(lists0, m0, tails0, lists, g);
    hide HasTime;
    CellTimes(lists, m, g);
    var i := CellAt(lists, m, g, u);
    assert forall k :: 0 < k < |cs| ==> Rank(cs[0].time) < Rank(cs[k].time);
    hide Ascending;
    if LoneTail(tails, lists, g) {
      forall v | Related(m0, g, v) && v !in done ensures v == u {
        assert Related(m, g, v);
        var j := CellAt(lists, m, g, v);
      }
    }
    if Covered(m0, g, done + {u}) {
      assert Related(m, g, cs[0].time);
      assert cs[0].time == u;
      assert tl.time == u;
    }
  }

  lemma CellTimes(lists: map<Handle, seq<TemporalEntry>>, m: map<Time, set<Handle>>, g: Handle)
    requires ListsOk(lists, m)
    ensures Ascending(CellsOf(lists, g))
    ensures forall k :: 0 <= k < |CellsOf(lists, g)| ==> Related(m, g, CellsOf(lists, g)[k].time)
  {
    hide Rank, Ascending;
    var nodes := CellsOf(lists, g);
    assert ListOk(m, g, nodes);
    forall k | 0 <= k < |nodes| ensures Related(m, g, nodes[k].time) {
      assert nodes[k] in nodes;
      assert HasTime(nodes, nodes[k].time);
    }
  }

  lemma CellAt(lists: map<Handle, seq<TemporalEntry>>, m: map<Time, set<Handle>>, g: Handle, u: Time) returns (i: nat)
    requires ListsOk(lists, m) && Related(m, g, u)
    ensures i < |CellsOf(lists, g)| && CellsOf(lists, g)[i].time == u
  {
    hide Rank, Ascending;
    var nodes := CellsOf(lists, g);
    assert ListOk(m, g, nodes);
    assert HasTime(nodes, u);
    i :| 0 <= i < |nodes| && nodes[i].time == u;
  }

  /** Cells that are still in the list are told apart by their times. */
  lemma LastIn(lists0: map<Handle, seq<TemporalEntry>>, m0: map<Time, set<Handle>>, tails0: map<Handle, TemporalEntry>,
               lists: map<Handle, seq<TemporalEntry>>, g: Handle)
    requires ListsOk(lists0, m0) && TailRight(tails0, lists0, g) && Fewer(lists0, lists)
    ensures var cs := CellsOf(lists, g);
      forall k :: 0 <= k < |cs| ==>
        Rank(cs[k].time) <= Rank(tails0[g].time) && (cs[k].time == tails0[g].time ==> cs[k] == tails0[g])
  {
    hide Rank;
    CellTimes(lists0, m0, g);
    var cs, cs0 := CellsOf(lists, g), CellsOf(lists0, g);
    hide ListsOk;
    forall k | 0 <= k < |cs|
      ensures Rank(cs[k].time) <= Rank(tails0[g].time) && (cs[k].time == tails0[g].time ==> cs[k] == tails0[g])
    {
      assert cs[k] in cs;
      var i :| 0 <= i < |cs0| && cs0[i] == cs[k];
      assert i < |cs0| - 1 ==> Rank(cs0[i].time) < Rank(cs0[|cs0| - 1].time);
    }
  }

  lemma ReducedNext(m0: map<Time, set<Handle>>, lists0: map<Handle, seq<TemporalEntry>>,
                    tails0: map<Handle, TemporalEntry>,
                    m: map<Time, set<Handle>>, lists: map<Handle, seq<TemporalEntry>>,
                    tails: map<Handle, TemporalEntry>,
                    lists': map<Handle, seq<TemporalEntry>>, tails': map<Handle, TemporalEntry>, done: set<Time>,
                    u: Time)
    requires ListsOk(lists0, m0) && ListsOk(lists, m) && Reduced(m0, lists0, tails0, m, lists, tails, done)
    requires u in m && (forall d :: d in done ==> Rank(d) < Rank(u))
    requires Fewer(lists, lists') && LoneTailsGone(tails, lists, m[u], tails')
    ensures Reduced(m0, lists0, tails0, m - {u}, lists', tails', done + {u})
  {
    hide Rank, ListsOk;
    assert m - {u} == m0 - (done + {u});
    FewerStill(lists0, lists, lists');
    forall g | TailRight(tails0, lists0, g) ensures g in tails' <==> !Covered(m0, g, done + {u}) {
      if g in tails && g in m[u] {
        LoneTailMeans(m0, lists0, tails0, m, lists, tails, done, u, g);
      } else {
        assert g !in m[u] ==> !Related(m0, g, u);
        assert Covered(m0, g, done) ==> Covered(m0, g, done + {u});
      }
    }
    forall g | TailLost(tails0, lists0, g) ensures !LoneTail(tails, lists, g) {
    }
  }

  /** In the end a tail pointer is stranded exactly if the tail cell is gone and some other is not. */
  lemma ReducedDone(m0: map<Time, set<Handle>>, lists0: map<Handle, seq<TemporalEntry>>,
                    tails0: map<Handle, TemporalEntry>, m: map<Time, set<Handle>>,
                    lists: map<Handle, seq<TemporalEntry>>, tails: map<Handle, TemporalEntry>,
                    t: Temporal, c: TemporalRelationship)
    requires t.Proper() || t == UNDEFINED_TEMPORAL
    requires ListsOk(lists0, m0) && ListsOk(lists, m)
    requires Reduced(m0, lists0, tails0, m, lists, tails, Selected(AllTimes(Pairs(m0)), t, c))
    ensures Pairs(m) == Pairs(m0) - Gone(Pairs(m0), UNDEFINED_HANDLE, t, c)
    ensures TailsKept(Pairs(m0), tails0, lists0, UNDEFINED_HANDLE, t, c, tails) && Fewer(lists0, lists)
  {
    hide Rank, ListsOk, Selected, Pairs, AllTimes, Fewer, Covered, LastGone, AllGone, Gone;
    var pairs, done := Pairs(m0), Selected(AllTimes(Pairs(m0)), t, c);
    PairsWithout(m0, done);
    GoneAtTimes(pairs, t, c);
    forall g | TailRight(tails0, lists0, g)
      ensures g in tails <==> !AllGone(pairs, g, PairsAt(pairs, done))
      ensures AllGone(pairs, g, PairsAt(pairs, done)) ==> LastGone(pairs, g, PairsAt(pairs, done))
    {
      TailGone(m0, lists0, tails0, done, g);
    }
  }

  lemma GoneAtTimes(pairs: set<(Handle, Time)>, t: Temporal, c: TemporalRelationship)
    requires t.Proper() || t == UNDEFINED_TEMPORAL
    ensures Gone(pairs, UNDEFINED_HANDLE, t, c) == PairsAt(pairs, Selected(AllTimes(pairs), t, c))
  {
    hide Rank, PairsAt, Selected, AllTimes;
  }

  /** What goes with the pairs at some times. */
  lemma TailGone(m: map<Time, set<Handle>>, lists: map<Handle, seq<TemporalEntry>>, tails: map<Handle, TemporalEntry>,
                 times: set<Time>, g: Handle)
    requires ListsOk(lists, m) && TailRight(tails, lists, g)
    ensures var gone := PairsAt(Pairs(m), times);
      && (LastGone(Pairs(m), g, gone) <==> tails[g].time in times)
      && (AllGone(Pairs(m), g, gone) <==> Covered(m, g, times))
    ensures Covered(m, g, times) ==> tails[g].time in times
  {
    hide Rank, ListsOk, Pairs, LastGone, AllGone;
    TailTime(tails, lists, m, g, PairsAt(Pairs(m), times));
    RelatedPairs(m, g, tails[g].time);
    CoveredGone(m, g, times);
  }

  lemma CoveredGone(m: map<Time, set<Handle>>, g: Handle, times: set<Time>)
    ensures AllGone(Pairs(m), g, PairsAt(Pairs(m), times)) <==> Covered(m, g, times)
  {
    hide Rank;
    forall v ensures v in TimesOf(Pairs(m), g) <==> Related(m, g, v) {
      assert Related(m, g, v) ==> (g, v) in Pairs(m);
    }
    hide Pairs;
    forall v | Related(m, g, v) ensures (g, v) in PairsAt(Pairs(m), times) <==> v in times {
      RelatedPairs(m, g, v);
    }
  }

  lemma PairsWithout(m: map<Time, set<Handle>>, times: set<Time>)
    ensures Pairs(m - times) == Pairs(m) - PairsAt(Pairs(m), times)
  {
    hide Rank;
    forall p: (Handle, Time) ensures p in Pairs(m - times) <==> p in Pairs(m) && p.1 !in times {
      assert p == (p.0, p.1);
    }
  }

  // ------------------------------------------------------- going through the list of all times

  lemma GoneNothing(pairs: set<(Handle, Time)>, t: Temporal, c: TemporalRelationship)
    requires t.Proper() || t == UNDEFINED_TEMPORAL
    ensures Gone(pairs, UNDEFINED_HANDLE, t, c) == {} <==> Selected(AllTimes(pairs), t, c) == {}
  {
    hide Rank, Holds;
    var chosen := Selected(AllTimes(pairs), t, c);
    if chosen != {} {
      var u :| u in chosen;
      var p :| p in pairs && p.1 == u;
      assert p in PairsAt(pairs, chosen);
    }
  }

  lemma ExactTime(lists: map<Handle, seq<TemporalEntry>>, m: map<Time, set<Handle>>, t: Time)
    requires ListsOk(lists, m) && t != UNDEFINED_TEMPORAL
    ensures Selected(AllTimes(Pairs(m)), t, EXACT) == if t in m then {t} else {}
  {
    hide Rank, ListOk;
    if t in m {
      var g :| g in m[t];
      assert (g, t) in Pairs(m);
    }
  }

  lemma MiddleCell(kept: seq<TemporalEntry>, all: seq<TemporalEntry>, k: nat)
    requires k < |all| && forall j :: 0 <= j < |kept| ==> kept[j] in all
    ensures kept + all[k..] == kept + [all[k]] + all[k + 1..] && (kept + all[k..])[|kept|] == all[k]
    ensures forall j :: 0 <= j < |kept + all[k..]| ==> (kept + all[k..])[j] in all
    ensures k + 1 < |all| ==> |kept| + 1 < |kept + all[k..]| && (kept + all[k..])[|kept| + 1] == all[k + 1]
    ensures kept == all[..k] ==> kept + [all[k]] == all[..k + 1]
  {
  }

  lemma MembersIn(kept: seq<TemporalEntry>, all: seq<TemporalEntry>, k: nat)
    requires k <= |all| && forall j :: 0 <= j < |kept| ==> kept[j] in all
    ensures forall j :: 0 <= j < |kept + all[k..]| ==> (kept + all[k..])[j] in all
  {
  }

  lemma RemovedMiddle(kept: seq<TemporalEntry>, x: TemporalEntry, rest: seq<TemporalEntry>)
    ensures RemoveAt(kept + [x] + rest, |kept|) == kept + rest
  {
  }

  lemma SamePlace(nodes: seq<TemporalEntry>, i: nat, j: nat)
    requires Distinct(nodes) && i <= j <= |nodes|
    requires (if i < |nodes| then nodes[i] else null) == (if j < |nodes| then nodes[j] else null)
    ensures i == j
  {
  }

  /** The first `k` times have been looked at; the matches are gone, or, for the criteria that want the
      previous time, only remembered, the last one at position `p`. */
  ghost predicate Sweeping(ts: seq<Time>, k: nat, finished: bool, t: Temporal, c: TemporalRelationship, p: int,
                           done: set<Time>, result: bool)
    requires t.Proper() || t == UNDEFINED_TEMPORAL
  {
    && Increasing(ts) && Scanned(ts, k, finished, t, c) && -1 <= p < k
    && done == (if OnlyRemembers(t, c) then {} else Matched(ts[..k], t, c))
    && (p >= 0 ==> OnlyRemembers(t, c) && Holds(ts[p], t, c))
    && (OnlyRemembers(t, c) ==> forall i :: p < i < k ==> !Holds(ts[i], t, c))
    && (result <==> Matched(ts[..k], t, c) != {})
  }

  lemma SweepBegins(ts: seq<Time>, t: Temporal, c: TemporalRelationship)
    requires (t.Proper() || t == UNDEFINED_TEMPORAL) && Increasing(ts)
    ensures Sweeping(ts, 0, false, t, c, -1, {}, false)
  {
    hide Rank, Holds, Finishes;
    assert Matched(ts[..0], t, c) == {};
  }

  lemma SweepStep(ts: seq<Time>, k: nat, finished: bool, t: Temporal, c: TemporalRelationship, p: int,
                  done: set<Time>, result: bool)
    requires t.Proper() || t == UNDEFINED_TEMPORAL
    requires Sweeping(ts, k, false, t, c, p, done, result) && k < |ts|
    requires finished <==> t != UNDEFINED_TEMPORAL && Finishes(ts[k], t, c)
    ensures Matching(ts[k], t, c) && OnlyRemembers(t, c) ==> Sweeping(ts, k + 1, finished, t, c, k, done, true)
    ensures Matching(ts[k], t, c) && !OnlyRemembers(t, c) ==>
      Sweeping(ts, k + 1, finished, t, c, p, done + {ts[k]}, true)
    ensures !Matching(ts[k], t, c) ==> Sweeping(ts, k + 1, finished, t, c, p, done, result)
    ensures forall d :: d in done ==> Rank(d) < Rank(ts[k])
  {
    hide Rank, Holds, Finishes, Scanned, Matched, Increasing;
    ScannedNext(ts, k, finished, t, c);
    MatchedNext(ts, k, t, c);
    MatchedBefore(ts, k, t, c);
    var before := Matched(ts[..k], t, c);
    assert before + {} == before;
    assert ts[k] in before + {ts[k]};
  }

  lemma SweepDone(ts: seq<Time>, k: nat, finished: bool, t: Temporal, c: TemporalRelationship, p: int,
                  done: set<Time>, result: bool)
    requires t.Proper() || t == UNDEFINED_TEMPORAL
    requires Sweeping(ts, k, finished, t, c, p, done, result) && (finished || k == |ts|)
    ensures var chosen := Selected(TimeSet(ts), t, c);
      && (result <==> chosen != {})
      && (!OnlyRemembers(t, c) ==> p == -1 && chosen == done)
      && (OnlyRemembers(t, c) ==> done == {} && chosen == if p >= 0 then {ts[p]} else {})
  {
    hide Rank, Holds, Finishes, Matched, Increasing, Selected;
    if OnlyRemembers(t, c) {
      PreviousComplete(ts, k, finished, t, c, p);
      RememberedMatch(ts, k, t, c, p);
    } else {
      ScanComplete(ts, k, finished, t, c);
    }
  }

  lemma OverlapsBegin(ts: seq<Time>, t: Time)
    requires t != UNDEFINED_TEMPORAL
    ensures Matched(ts[..0], t, OVERLAPS) == {}
  {
    hide Rank, Lo, Hi;
  }

  lemma OverlapsNext(ts: seq<Time>, k: nat, t: Time)
    requires t != UNDEFINED_TEMPORAL && k < |ts| && Increasing(ts)
    ensures var before := Matched(ts[..k], t, OVERLAPS);
      && Matched(ts[..k + 1], t, OVERLAPS) == (if Holds(ts[k], t, OVERLAPS) then before + {ts[k]} else before)
      && (Holds(ts[k], t, OVERLAPS) ==> Matched(ts[..k + 1], t, OVERLAPS) != {})
      && forall d :: d in before ==> Rank(d) < Rank(ts[k])
  {
    hide Rank, Lo, Hi, Holds, Matched, Increasing;
    MatchedNext(ts, k, t, OVERLAPS);
    MatchedBefore(ts, k, t, OVERLAPS);
    var before := Matched(ts[..k], t, OVERLAPS);
    assert before + {} == before;
    assert ts[k] in before + {ts[k]};
  }

  // ------------------------------------------------------- the lists of the handles of one time

  lemma TailAtHead(tails: map<Handle, TemporalEntry>, lists: map<Handle, seq<TemporalEntry>>, g: Handle)
    ensures LoneTail(tails, lists, g) <==> EntryOf(tails, g) != null && EntryOf(tails, g) == HeadOf(CellsOf(lists, g))
  {
  }

  lemma HeadsPointAgain(heads: map<Handle, TemporalEntry>, lists: map<Handle, seq<TemporalEntry>>, g: Handle,
                        r: seq<TemporalEntry>)
    requires HeadsPoint(heads, lists)
    ensures CellsOf(WithCells(lists, g, r), g) == r
    ensures var te := HeadOf(r);
      HeadsPoint(if te == null then heads - {g} else (heads - {g})[g := te], WithCells(lists, g, r))
  {
  }

  /** The map while `hs` are still to lose the time. */
  ghost function StillAt(m: map<Time, set<Handle>>, t: Time, hs: set<Handle>): map<Time, set<Handle>> {
    if hs == {} then m - {t} else m[t := hs]
  }

  lemma StillAtNext(m: map<Time, set<Handle>>, t: Time, hs: set<Handle>, g: Handle)
    requires g in hs
    ensures t in StillAt(m, t, hs) && Related(StillAt(m, t, hs), g, t)
    ensures DropPair(StillAt(m, t, hs), g, t) == StillAt(m, t, hs - {g})
  {
    hide Rank;
    if hs - {g} == {} {
      assert m[t := hs] - {t} == m - {t};
    }
  }

  /** The handles of `gone` have lost the time. */
  ghost predicate Dropping(tails0: map<Handle, TemporalEntry>, lists0: map<Handle, seq<TemporalEntry>>,
                           gone: set<Handle>,
                           tails: map<Handle, TemporalEntry>, lists: map<Handle, seq<TemporalEntry>>)
  {
    && Fewer(lists0, lists) && LoneTailsGone(tails0, lists0, gone, tails)
    && forall g :: g !in gone ==> CellsOf(lists, g) == CellsOf(lists0, g)
  }

  lemma DroppingBegins(m: map<Time, set<Handle>>, t: Time, tails: map<Handle, TemporalEntry>,
                       lists: map<Handle, seq<TemporalEntry>>)
    requires t in m && m[t] != {}
    ensures Dropping(tails, lists, {}, tails, lists) && StillAt(m, t, m[t]) == m
  {
    hide Rank;
  }

  lemma DroppingNext(tails0: map<Handle, TemporalEntry>, lists0: map<Handle, seq<TemporalEntry>>, gone: set<Handle>,
                     tails: map<Handle, TemporalEntry>, lists: map<Handle, seq<TemporalEntry>>,
                     tails': map<Handle, TemporalEntry>, lists': map<Handle, seq<TemporalEntry>>, g: Handle, t: Time)
    requires Dropping(tails0, lists0, gone, tails, lists) && g !in gone
    requires lists' == WithCells(lists, g, Without(CellsOf(lists, g), t))
    requires tails' == if LoneTail(tails, lists, g) then tails - {g} else tails
    ensures Dropping(tails0, lists0, gone + {g}, tails', lists')
  {
    hide Rank, Without;
    WithoutMembers(CellsOf(lists, g), t);
    var r := Without(CellsOf(lists, g), t);
    forall f ensures CellsOf(lists', f) == if f == g then r else CellsOf(lists, f) {
    }
    forall f, x | x in CellsOf(lists', f) ensures x in CellsOf(lists0, f) {
      if f == g {
        var i :| 0 <= i < |r| && r[i] == x;
      }
      assert x in CellsOf(lists, f);
    }
    assert LoneTail(tails, lists, g) <==> LoneTail(tails0, lists0, g);
  }

  lemma DroppingEnds(m: map<Time, set<Handle>>, t: Time, tails0: map<Handle, TemporalEntry>,
                     lists0: map<Handle, seq<TemporalEntry>>, hs: set<Handle>, tails: map<Handle, TemporalEntry>,
                     lists: map<Handle, seq<TemporalEntry>>)
    requires Dropping(tails0, lists0, hs, tails, lists)
    ensures Fewer(lists0, lists) && LoneTailsGone(tails0, lists0, hs, tails) && StillAt(m, t, {}) == m - {t}
  {
  }

  lemma TimeIsKey(nodes: seq<TemporalEntry>, m: map<Time, set<Handle>>, q: nat)
    requires KeysOk(nodes, m) && Ascending(nodes) && q < |nodes|
    ensures nodes[q].time in m && |m - {nodes[q].time}| == |nodes| - 1
  {
    hide Rank;
    assert nodes[q] in nodes && HasTime(nodes, nodes[q].time);
    var p := PlaceOf(nodes, m, nodes[q].time);
  }

  lemma HandlesOfKey(lists: map<Handle, seq<TemporalEntry>>, m: map<Time, set<Handle>>, t: Time)
    requires ListsOk(lists, m) && t in m
    ensures m[t] != {}
  {
    hide Rank, Ascending;
  }
}
