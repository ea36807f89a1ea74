/** Bins by short-term importance, and the decay (opencog/atomspace/ImportanceIndex.cc). */
module ImportanceIndexes {
  import opened Handles
  import opened Atoms
  import opened AtomGraph
  import opened TLBs
  import opened AtomIndexes

  const IMPORTANCE_INDEX_SIZE: nat := 65536

  // ------------------------------------------------------- what one decay does to the values

  /** The atoms of `some` decay. */
  ghost function DecayOf(avs: map<Handle, AttentionValue>, some: set<Handle>): map<Handle, AttentionValue> {
    map h | h in avs :: if h in some then avs[h].Decayed() else avs[h]
  }

  /** In the fields: the atoms of `some` have one unit of short-term importance less, unless they have the least
      there is, and nothing else has changed. */
  ghost predicate LostOneUnit(avs: map<Handle, AttentionValue>, some: set<Handle>, avs': map<Handle, AttentionValue>) {
    && avs'.Keys == avs.Keys
    && forall h :: h in avs ==>
         && avs'[h].sti == (if h in some && avs[h].sti > -32768 then avs[h].sti - 1 else avs[h].sti)
         && avs'[h].lti == avs[h].lti && avs'[h].vlti == avs[h].vlti
  }

  lemma OnlyDecayLoses(avs: map<Handle, AttentionValue>, some: set<Handle>, avs': map<Handle, AttentionValue>)
    ensures LostOneUnit(avs, some, avs') <==> avs' == DecayOf(avs, some)
  {
    if LostOneUnit(avs, some, avs') {
      assert DecayOf(avs, some).Keys == avs.Keys;
      assert forall h :: h in avs' ==> avs'[h] == DecayOf(avs, some)[h];
    }
  }

  lemma DecayNone(avs: map<Handle, AttentionValue>, band: set<Handle>)
    ensures DecayOf(avs, band - band) == avs
  {
  }

  lemma DecayOneMore(avs: map<Handle, AttentionValue>, band: set<Handle>, todo: set<Handle>, h: Handle)
    requires todo <= band <= avs.Keys && h in todo
    ensures var so := DecayOf(avs, band - todo);
            h in so && so[h := so[h].Decayed()] == DecayOf(avs, band - (todo - {h}))
  {
  }

  /** The atoms in bins 1 to `last`. */
  ghost function InBins(avs: map<Handle, AttentionValue>, live: set<Handle>, last: nat): set<Handle> {
    set h | h in live && h in avs && 1 <= ImportanceBin(avs[h].sti) <= last
  }

  lemma InNoBins(avs: map<Handle, AttentionValue>, live: set<Handle>)
    ensures DecayOf(avs, InBins(avs, live, 0)) == avs
  {
    assert InBins(avs, live, 0) == {};
  }

  /** Decaying a further bin. */
  lemma InNextBin(avs: map<Handle, AttentionValue>, live: set<Handle>, idx: seq<set<Handle>>, b: nat)
    requires BinsOk(idx, live, ImportanceBins(avs)) && 1 <= b < |idx|
    ensures idx[b] <= live
    ensures DecayOf(DecayOf(avs, InBins(avs, live, b - 1)), idx[b]) == DecayOf(avs, InBins(avs, live, b))
  {
    forall h ensures h in idx[b] <==> h in live && ImportanceBin(avs[h].sti) == b {
    }
    assert DecayOf(avs, InBins(avs, live, b - 1)).Keys == avs.Keys;
  }

  /** In the end all live atoms have decayed: those of bin 0 are as low as they can be. */
  lemma InAllBins(avs: map<Handle, AttentionValue>, live: set<Handle>)
    ensures DecayOf(avs, InBins(avs, live, IMPORTANCE_INDEX_SIZE - 1)) == DecayOf(avs, live)
  {
  }

  // The last bin that has been dealt with before bin `b`; bin 0 cannot change.
  function Before(b: nat): nat {
    if b == 0 then 0 else b - 1
  }

  lemma BandNow(avs: map<Handle, AttentionValue>, live: set<Handle>, idx: seq<set<Handle>>, b: nat)
    requires BinsOk(idx, live, ImportanceBins(DecayOf(avs, InBins(avs, live, Before(b))))) && b < |idx|
    ensures DecayOf(DecayOf(avs, InBins(avs, live, Before(b))), idx[b]) ==
      DecayOf(avs, InBins(avs, live, Before(b + 1)))
  {
    var so := DecayOf(avs, InBins(avs, live, Before(b)));
    assert so.Keys == avs.Keys;
    forall h ensures h in idx[b] <==> h in live && ImportanceBin(so[h].sti) == b {
      if h in live {
        assert ImportanceBins(so)[h] == {ImportanceBin(so[h].sti)};
      }
    }
  }

  lemma NextInBand(avs: map<Handle, AttentionValue>, live: set<Handle>, idx: seq<set<Handle>>, band: set<Handle>,
                   todo: set<Handle>, h: Handle, b: nat)
    requires BinsOk(idx, live, ImportanceBins(avs)) && b < |idx| && band == idx[b] && todo <= band && h in todo
    ensures h in avs && ImportanceBin(avs[h].sti) == b
    ensures ImportanceBin(avs[h].Decayed().sti) == if b == 0 then 0 else b - 1
    ensures var so := DecayOf(avs, band - todo);
            h in so && so[h] == avs[h] && so[h := avs[h].Decayed()] == DecayOf(avs, band - (todo - {h}))
    ensures band - (todo - {h}) == band - todo + {h}
  {
    assert h in live && b in ImportanceBins(avs)[h];
    assert ImportanceBins(avs).Keys == avs.Keys;
    assert forall x :: x in band ==> x in live;
    hide BinsOk, InBins, ImportanceBins;
    DecayOneMore(avs, band, todo, h);
  }

  /** The bins while the atoms of bin `b` move down. */
  ghost function Moving(before: seq<set<Handle>>, b: nat, moved: set<Handle>): seq<set<Handle>>
    requires b < |before|
  {
    if b == 0 then before else before[b - 1 := before[b - 1] + moved]
  }

  lemma MovingBegins(before: seq<set<Handle>>, b: nat)
    requires b < |before|
    ensures Moving(before, b, {}) == before
  {
    assert b > 0 ==> before[b - 1] + {} == before[b - 1];
  }

  lemma MovingOne(before: seq<set<Handle>>, b: nat, moved: set<Handle>, h: Handle)
    requires b < |before|
    ensures |Moving(before, b, moved)| == |before|
    ensures b > 0 ==>
      Moving(before, b, moved)[b - 1 := Moving(before, b, moved)[b - 1] + {h}] == Moving(before, b, moved + {h})
  {
    if b > 0 {
      assert before[b - 1] + moved + {h} == before[b - 1] + (moved + {h});
    }
  }

  /** The atoms of `todo` are still to move down from bin `b`; the others have, as `avs'` and `idx` say. */
  ghost predicate MovingDown(avs: map<Handle, AttentionValue>, before: seq<set<Handle>>, b: nat, todo: set<Handle>,
                             avs': map<Handle, AttentionValue>, idx: seq<set<Handle>>, moved: set<Handle>)
  {
    && b < |before| && todo <= before[b] && avs' == DecayOf(avs, before[b] - todo)
    && moved == (if b == 0 then {} else before[b] - todo)
    && idx == Moving(before, b, moved) && |idx| == |before|
  }

  lemma MovingDownBegins(avs: map<Handle, AttentionValue>, before: seq<set<Handle>>, b: nat)
    requires b < |before|
    ensures MovingDown(avs, before, b, before[b], avs, before, {})
  {
    hide DecayOf;
    DecayNone(avs, before[b]);
    MovingBegins(before, b);
    assert before[b] - before[b] == {};
  }

  lemma MovingDownNext(avs: map<Handle, AttentionValue>, live: set<Handle>, before: seq<set<Handle>>, b: nat,
                       todo: set<Handle>, avs': map<Handle, AttentionValue>, idx: seq<set<Handle>>, moved: set<Handle>,
                       h: Handle)
    requires BinsOk(before, live, ImportanceBins(avs)) && MovingDown(avs, before, b, todo, avs', idx, moved)
    requires h in todo
    ensures h in live && h in avs' && b < |idx|
    ensures var newbin := ImportanceBin(avs'[h].Decayed().sti);
      && newbin < |idx|
      && MovingDown(avs, before, b, todo - {h}, avs'[h := avs'[h].Decayed()],
                    if newbin != b then idx[newbin := idx[newbin] + {h}] else idx,
                    if newbin != b then moved + {h} else moved)
  {
    hide DecayOf, Moving, ImportanceBins, ImportanceBin;
    NextInBand(avs, live, before, before[b], todo, h, b);
    MovingOne(before, b, moved, h);
    BandLive(avs, live, before, b);
  }

  lemma BandLive(avs: map<Handle, AttentionValue>, live: set<Handle>, before: seq<set<Handle>>, b: nat)
    requires BinsOk(before, live, ImportanceBins(avs)) && b < |before|
    ensures before[b] <= live
  {
  }

  lemma MovingDownEnds(avs: map<Handle, AttentionValue>, live: set<Handle>, before: seq<set<Handle>>, b: nat,
                       avs': map<Handle, AttentionValue>, idx: seq<set<Handle>>, moved: set<Handle>)
    requires BinsOk(before, live, ImportanceBins(avs)) && MovingDown(avs, before, b, {}, avs', idx, moved)
    ensures b < |idx| == |before| && avs' == DecayOf(avs, before[b])
    ensures BinsOk(idx[b := idx[b] - moved], live, ImportanceBins(avs'))
  {
    hide BinsOk, DecayOf, Moving, ImportanceBins;
    assert before[b] - {} == before[b];
    MovingEnds(avs, live, before, b);
  }

  lemma MovingEnds(avs: map<Handle, AttentionValue>, live: set<Handle>, before: seq<set<Handle>>, b: nat)
    requires BinsOk(before, live, ImportanceBins(avs)) && b < |before|
    ensures var moved := if b == 0 then {} else before[b];
            var now := Moving(before, b, moved);
            |now| == |before| && BinsOk(now[b := now[b] - moved], live, ImportanceBins(DecayOf(avs, before[b])))
  {
    var moved := if b == 0 then {} else before[b];
    var idx := Moving(before, b, moved)[b := before[b] - moved];
    var avs' := DecayOf(avs, before[b]);
    var bins, bins' := ImportanceBins(avs), ImportanceBins(avs');
    forall h | h in live ensures bins[h] == {ImportanceBin(avs[h].sti)} && bins'[h] == {ImportanceBin(avs'[h].sti)} {
    }
    forall c, h | 0 <= c < |idx| ensures h in idx[c] <==> h in live && c in bins'[h] {
      assert h in before[c] <==> h in live && c in bins[h];
      assert h in before[b] <==> h in live && b in bins[h];
    }
    forall h, c | h in live && c in bins'[h] ensures c < |idx| {
      assert ImportanceBin(avs[h].sti) in bins[h];
    }
  }

  /** The bins after the shift. */
  ghost predicate Shifted(before: seq<set<Handle>>, after: seq<set<Handle>>, upTo: nat) {
    && |before| == |after| == IMPORTANCE_INDEX_SIZE + 1
    && after[0] == before[0] + before[1]
    && (forall b :: 1 <= b < upTo < |after| ==> after[b] == before[b + 1])
    && (forall b :: upTo <= b < |after| ==> after[b] == before[b])
  }

  lemma ShiftedOk(before: seq<set<Handle>>, after: seq<set<Handle>>, live: set<Handle>,
                  avs: map<Handle, AttentionValue>)
    requires BinsOk(before, live, ImportanceBins(avs))
    requires Shifted(before, after, IMPORTANCE_INDEX_SIZE - 1)
    ensures BinsOk(after[IMPORTANCE_INDEX_SIZE - 1 := {}], live, ImportanceBins(DecayOf(avs, live)))
  {
    var avs' := DecayOf(avs, live);
    var bins, bins' := ImportanceBins(avs), ImportanceBins(avs');
    var idx := after[IMPORTANCE_INDEX_SIZE - 1 := {}];
    forall h, b | h in live && b in bins'[h] ensures b < |idx| {
      assert ImportanceBin(avs[h].sti) in bins[h];
    }
    forall b, h | 0 <= b < |idx| ensures h in idx[b] <==> h in live && b in bins'[h] {
      assert forall c :: 0 <= c < |before| ==> (h in before[c] <==> h in live && c in bins[h]);
      if h in live {
        assert bins[h] == {ImportanceBin(avs[h].sti)};
        assert bins'[h] == {ImportanceBin(avs'[h].sti)};
      }
    }
  }

  // ------------------------------------------------------- what the sweep has done so far

  ghost predicate Swept(g: Graph, live: set<Handle>, avs: map<Handle, AttentionValue>, threshold: Short,
                        out: set<Handle>) {
    && out <= live
    && Closed(g, live - out)
    && forall x :: x in out ==> DeepOld(g, live, avs, threshold, x)
  }

  lemma NothingSwept(g: Graph, live: set<Handle>, avs: map<Handle, AttentionValue>, threshold: Short)
    requires Closed(g, live)
    ensures Swept(g, live, avs, threshold, {})
  {
    assert live - {} == live;
  }

  /** An atom goes after all that names it. */
  lemma SweptOneMore(g: Graph, live: set<Handle>, inc: map<Handle, seq<Handle>>, avs: map<Handle, AttentionValue>,
                     threshold: Short, out: set<Handle>, h: Handle)
    requires LinksPointBack(g) && Closed(g, live) && IncomingOk(g, live, inc) && live <= avs.Keys
    requires Swept(g, live, avs, threshold, out) && h in live && avs[h].IsOld(threshold)
    requires forall i :: i in inc[h] ==> i in out
    ensures DeepOld(g, live, avs, threshold, h) && Swept(g, live, avs, threshold, out + {h})
  {
    hide DeepOld, Reaches, IncomingOk;
    InIncoming(g, live, inc, h);
    DeepOldStep(g, live, avs, threshold, h);
  }

  /** An atom stays if something that names it does. */
  lemma SweptNot(g: Graph, live: set<Handle>, inc: map<Handle, seq<Handle>>, avs: map<Handle, AttentionValue>,
                 threshold: Short, h: Handle, i: Handle)
    requires LinksPointBack(g) && Closed(g, live) && IncomingOk(g, live, inc) && live <= avs.Keys
    requires h in live && i in inc[h] && !DeepOld(g, live, avs, threshold, i)
    ensures !DeepOld(g, live, avs, threshold, h)
  {
    hide DeepOld, Reaches, IncomingOk;
    InIncoming(g, live, inc, h);
    DeepOldStep(g, live, avs, threshold, h);
  }

  lemma IncomingLater(g: Graph, live: set<Handle>, inc: map<Handle, seq<Handle>>, h: Handle)
    requires LinksPointBack(g) && Closed(g, live) && IncomingOk(g, live, inc) && h in live
    ensures forall i :: i in inc[h] ==> i in live && i in g && h < i
  {
    InIncoming(g, live, inc, h);
  }

  lemma NotOld(g: Graph, live: set<Handle>, avs: map<Handle, AttentionValue>, threshold: Short, h: Handle)
    requires h in live && h in avs && !avs[h].IsOld(threshold)
    ensures !DeepOld(g, live, avs, threshold, h)
  {
    assert Reaches(g, h, h);
  }

  lemma OldOnly(g: Graph, live: set<Handle>, avs: map<Handle, AttentionValue>, threshold: Short)
    ensures forall h :: DeepOld(g, live, avs, threshold, h) ==> h in live && h in avs && avs[h].IsOld(threshold)
  {
    forall h | DeepOld(g, live, avs, threshold, h) ensures h in live && h in avs && avs[h].IsOld(threshold) {
      assert Reaches(g, h, h);
    }
  }

  ghost function AllDeepOld(g: Graph, live: set<Handle>, avs: map<Handle, AttentionValue>,
                            threshold: Short): set<Handle> {
    set h | h in live && DeepOld(g, live, avs, threshold, h)
  }

  /** In the fields: exactly those atoms are to go that are reached only by atoms, themselves included, with less
      short-term importance than the least wanted and without long-term importance. */
  ghost predicate LetGo(g: Graph, live: set<Handle>, avs: map<Handle, AttentionValue>, minSTI: Short,
                        gone: set<Handle>) {
    forall h :: h in gone <==>
      h in live && forall x :: x in live && Reaches(g, x, h) ==> x in avs && avs[x].sti < minSTI && avs[x].lti < 1
  }

  lemma OnlyDeepOldGo(g: Graph, live: set<Handle>, avs: map<Handle, AttentionValue>, minSTI: Short, gone: set<Handle>)
    ensures LetGo(g, live, avs, minSTI, gone) <==> gone == AllDeepOld(g, live, avs, minSTI)
  {
    hide Reaches;
    forall h ensures h in AllDeepOld(g, live, avs, minSTI) <==>
      h in live && forall x :: x in live && Reaches(g, x, h) ==> x in avs && avs[x].sti < minSTI && avs[x].lti < 1
    {
      assert h in AllDeepOld(g, live, avs, minSTI) <==> DeepOld(g, live, avs, minSTI, h);
    }
  }

  /** An atom with long-term importance stays, and so does everything it names, directly or not. */
  lemma LongTermStays(g: Graph, live: set<Handle>, avs0: map<Handle, AttentionValue>, avs: map<Handle, AttentionValue>,
                      minSTI: Short, gone: set<Handle>, x: Handle, h: Handle)
    requires Closed(g, live) && LostOneUnit(avs0, live, avs) && LetGo(g, live, avs, minSTI, gone)
    requires x in live && x in avs0 && avs0[x].lti >= 1 && Reaches(g, x, h)
    ensures h in live && h !in gone
  {
    ClosedReaches(g, live, x, h);
  }

  lemma DeepOldLive(g: Graph, live: set<Handle>, avs: map<Handle, AttentionValue>, threshold: Short)
    ensures AllDeepOld(g, live, avs, threshold) <= live
  {
  }

  ghost function ElementsOf(s: seq<Handle>): set<Handle> {
    set h | h in s
  }

  lemma ElementsJoin(a: seq<Handle>, b: seq<Handle>)
    ensures ElementsOf(a + b) == ElementsOf(a) + ElementsOf(b)
  {
  }

  lemma NothingListed(g: Graph)
    ensures NoRepeats([]) && TargetsFirst(g, []) && ElementsOf([]) == {}
  {
  }

  lemma EmittedIsDeepOld(g: Graph, live: set<Handle>, avs: map<Handle, AttentionValue>, threshold: Short,
                         out: set<Handle>, h: Handle)
    requires Swept(g, live, avs, threshold, out) && h in out
    ensures DeepOld(g, live, avs, threshold, h)
  {
  }

  lemma OntoStack(before: set<Handle>, stack: set<Handle>, h: Handle)
    requires h !in before && stack <= before
    ensures before + {h} - (stack + {h}) == before - stack && before + {h} - before - {h} == {}
    ensures stack + {h} <= before + {h}
  {
  }

  lemma OffStack(now: set<Handle>, before: set<Handle>, stack: set<Handle>, h: Handle)
    requires h !in before && stack <= before && before + {h} <= now
    ensures now - {h} - stack == now - (stack + {h}) && now - {h} - before == now - before - {h}
    ensures before <= now - {h}
  {
  }

  /** What is emitted later is listed earlier. */
  lemma LaterFirst(g: Graph, live: set<Handle>, avs: map<Handle, AttentionValue>, threshold: Short,
                   more: seq<Handle>, result: seq<Handle>, now: set<Handle>, mid: set<Handle>, before: set<Handle>,
                   stack: set<Handle>, h: Handle)
    requires NoRepeats(more) && TargetsFirst(g, more) && ElementsOf(more) == now - mid
    requires NoRepeats(result) && TargetsFirst(g, result) && ElementsOf(result) == mid - before - {h}
    requires stack <= before && before + {h} <= mid <= now
    requires Swept(g, live, avs, threshold, mid - (stack + {h})) && Swept(g, live, avs, threshold, now - (stack + {h}))
    ensures NoRepeats(more + result) && TargetsFirst(g, more + result)
    ensures ElementsOf(more + result) == now - before - {h}
  {
    hide DeepOld, TargetsFirst, NoRepeats;
    ElementsJoin(more, result);
    forall x | x in more ensures x in live - (mid - (stack + {h})) {
      assert x in ElementsOf(more);
    }
    forall x | x in result ensures x !in live - (mid - (stack + {h})) {
      assert x in ElementsOf(result);
    }
    TargetsFirstJoin(g, live - (mid - (stack + {h})), more, result);
  }

  lemma LastFirst(g: Graph, live: set<Handle>, avs: map<Handle, AttentionValue>, threshold: Short,
                  result: seq<Handle>, now: set<Handle>, before: set<Handle>, stack: set<Handle>, h: Handle)
    requires LinksPointBack(g) && h in live && h !in before && stack <= before && before + {h} <= now
    requires NoRepeats(result) && TargetsFirst(g, result) && ElementsOf(result) == now - before - {h}
    requires Swept(g, live, avs, threshold, now - (stack + {h}))
    ensures NoRepeats([h] + result) && TargetsFirst(g, [h] + result) && ElementsOf([h] + result) == now - before
    ensures now - (stack + {h}) + {h} == now - stack
  {
    hide DeepOld, TargetsFirst, NoRepeats;
    TargetsFirstOne(g, h);
    ElementsJoin([h], result);
    assert ElementsOf([h]) == {h};
    forall x | x in result ensures x !in live - (now - (stack + {h})) {
      assert x in ElementsOf(result);
    }
    TargetsFirstJoin(g, live - (now - (stack + {h})), [h], result);
  }

  /** The same between calls from the sweep itself. */
  lemma LaterFirstInSweep(g: Graph, live: set<Handle>, avs: map<Handle, AttentionValue>, threshold: Short,
                          more: seq<Handle>, result: seq<Handle>, now: set<Handle>, mid: set<Handle>)
    requires NoRepeats(more) && TargetsFirst(g, more) && ElementsOf(more) == now - mid && mid <= now
    requires NoRepeats(result) && TargetsFirst(g, result) && ElementsOf(result) == mid
    requires Swept(g, live, avs, threshold, mid) && Swept(g, live, avs, threshold, now)
    ensures NoRepeats(more + result) && TargetsFirst(g, more + result) && ElementsOf(more + result) == now
  {
    hide DeepOld, TargetsFirst, NoRepeats;
    ElementsJoin(more, result);
    forall x | x in more ensures x in live - mid {
      assert x in ElementsOf(more);
    }
    forall x | x in result ensures x !in live - mid {
      assert x in ElementsOf(result);
    }
    TargetsFirstJoin(g, live - mid, more, result);
  }

  /** Bins above the threshold hold nothing old. */
  lemma SweptAll(g: Graph, live: set<Handle>, avs: map<Handle, AttentionValue>, threshold: Short,
                 idx: seq<set<Handle>>, out: set<Handle>)
    requires Swept(g, live, avs, threshold, out) && BinsOk(idx, live, ImportanceBins(avs))
    requires ImportanceBin(threshold) < |idx|
    requires forall b, h :: 0 <= b <= ImportanceBin(threshold) && h in idx[b] && DeepOld(g, live, avs, threshold, h) ==>
      h in out
    ensures out == AllDeepOld(g, live, avs, threshold) && Closed(g, live - out)
  {
    hide Reaches, Closed;
    OldOnly(g, live, avs, threshold);
    hide DeepOld;
    forall h | h in live && DeepOld(g, live, avs, threshold, h) ensures h in out {
      var b := ImportanceBin(avs[h].sti);
      assert b in ImportanceBins(avs)[h];
      assert h in idx[b];
    }
  }

  class ImportanceIndex {
    var idx: seq<set<Handle>>

    constructor ()
      ensures |idx| == IMPORTANCE_INDEX_SIZE + 1 && forall b :: 0 <= b <= IMPORTANCE_INDEX_SIZE ==> idx[b] == {}
    {
      idx := seq(IMPORTANCE_INDEX_SIZE + 1, _ => {});
    }

    ghost predicate Ok(avs: map<Handle, AttentionValue>, live: set<Handle>)
      reads this`idx
    {
      |idx| == IMPORTANCE_INDEX_SIZE + 1 && BinsOk(idx, live, ImportanceBins(avs))
    }

    method InsertHandle(tlb: TLB, h: Handle, ghost live: set<Handle>)
      requires tlb.Mirrors() && h in tlb.handleMap && Ok(tlb.avs, live) && h !in live
      modifies this`idx
      ensures Ok(tlb.avs, live + {h})
    {
      hide BinsOk;
      var b := ImportanceBin(tlb.handleMap[h].av.sti);
      ghost var bins := ImportanceBins(tlb.avs);
      BinsEnter(idx, live, bins, h);
      BinsAdd(idx, live + {h}, bins, h, {}, b);
      assert bins[h] == {} + {b};
      assert bins[h := bins[h]] == bins;
      idx := idx[b := idx[b] + {h}];
    }

    method RemoveHandle(tlb: TLB, h: Handle, ghost live: set<Handle>)
      requires tlb.Mirrors() && h in tlb.handleMap && Ok(tlb.avs, live) && h in live
      modifies this`idx
      ensures Ok(tlb.avs, live - {h})
    {
      hide BinsOk;
      var b := ImportanceBin(tlb.handleMap[h].av.sti);
      ghost var bins := ImportanceBins(tlb.avs);
      assert bins[h] == {b};
      assert bins == bins[h := {b}];
      BinsDrop(idx, live, bins, h, {b}, b);
      assert {b} - {b} == {};
      idx := idx[b := idx[b] - {h}];
      BinsLeave(idx, live, bins, h);
    }

    /** After the importance of an atom changed from `old`: moves the atom to its new bin. */
    method UpdateImportance(tlb: TLB, h: Handle, bin: nat, ghost avs: map<Handle, AttentionValue>,
                            ghost live: set<Handle>)
      requires tlb.Mirrors() && h in tlb.handleMap && h in live && live <= tlb.handleMap.Keys
      requires Ok(avs, live) && h in avs && avs.Keys == tlb.avs.Keys
      requires forall x :: x in avs && x != h ==> tlb.avs[x] == avs[x]
      requires bin == ImportanceBin(avs[h].sti)
      modifies this`idx
      ensures Ok(tlb.avs, live)
    {
      hide BinsOk;
      var newbin := ImportanceBin(tlb.handleMap[h].av.sti);
      ghost var bins, bins' := ImportanceBins(avs), ImportanceBins(tlb.avs);
      if bin == newbin {
        assert bins' == bins;
        return;
      }
      assert bins == bins[h := {bin}];
      BinsDrop(idx, live, bins, h, {bin}, bin);
      assert {bin} - {bin} == {};
      idx := idx[bin := idx[bin] - {h}];
      BinsAdd(idx, live, bins, h, {}, newbin);
      assert bins' == bins[h := {newbin}];
      assert {} + {newbin} == {newbin};
      idx := idx[newbin := idx[newbin] + {h}];
    }

    method RemoveDecayed(tlb: TLB, ghost live: set<Handle>)
      requires tlb.Mirrors() && Ok(tlb.avs, live) && live <= tlb.handleMap.Keys
      modifies this`idx
      ensures Ok(tlb.avs, live - tlb.decayed)
    {
      hide BinsOk, Numbered, IncomingMirrored, AttentionMirrored, MarkedMirrored, DecayedMirrored;
      idx := FilterBins(idx, tlb, live, ImportanceBins(tlb.avs));
    }

    static lemma Known(tlb: TLB, live: set<Handle>)
      requires tlb.Mirrors()
      ensures tlb.inc.Keys == tlb.avs.Keys == tlb.handleMap.Keys == GraphOf(tlb.handleMap).Keys
      ensures forall h :: h in tlb.handleMap ==> h < tlb.brkUuid
      ensures Closed(GraphOf(tlb.handleMap), live) ==> live <= tlb.handleMap.Keys
    {
    }

    /** Lowers the importance of the atoms of a band. */
    static method DecayBand(tlb: TLB, band: set<Handle>)
      requires tlb.Mirrors() && band <= tlb.handleMap.Keys
      modifies tlb`avs, tlb.atoms`av
      ensures tlb.Mirrors() && tlb.avs == DecayOf(old(tlb.avs), band)
    {
      hide Numbered, IncomingMirrored, AttentionMirrored, MarkedMirrored, DecayedMirrored;
      hide DecayOf;
      var todo := band;
      Known(tlb, band);
      DecayNone(tlb.avs, band);
      while todo != {}
        invariant todo <= band
        invariant tlb.Mirrors() && tlb.avs == DecayOf(old(tlb.avs), band - todo)
        decreases todo
      {
        var h :| h in todo;
        var atom := GetAtom(tlb, h);
        tlb.SetAttentionValue(h, atom.av.Decayed());
        DecayOneMore(old(tlb.avs), band, todo, h);
        todo := todo - {h};
      }
      assert band - todo == band;
    }

    static function GetAtom(tlb: TLB, h: Handle): (atom: Atom)
      requires tlb.Mirrors() && h in tlb.handleMap
      reads tlb, tlb.atoms
      ensures atom == tlb.handleMap[h] && atom in tlb.atoms && atom.handle == h
      ensures atom.incoming == tlb.inc[h] && atom.av == tlb.avs[h]
      ensures (atom.markedForRemoval <==> h in tlb.marked) && (atom.removedByDecay <==> h in tlb.decayed)
    {
      tlb.handleMap[h]
    }

    /** Every live atom loses one unit of importance; the bins move down in one block. */
    method ShiftBins(tlb: TLB, ghost live: set<Handle>)
      requires tlb.Mirrors() && Ok(tlb.avs, live) && live <= tlb.handleMap.Keys
      modifies this`idx, tlb`avs, tlb.atoms`av
      ensures tlb.Mirrors() && tlb.avs == DecayOf(old(tlb.avs), live) && Ok(tlb.avs, live)
    {
      hide BinsOk, Numbered, IncomingMirrored, AttentionMirrored, MarkedMirrored, DecayedMirrored, DecayOf, InBins;
      hide ImportanceBins;
      ghost var before := idx;
      ghost var avs := tlb.avs;
      Known(tlb, live);
      InNoBins(avs, live);
      InNextBin(avs, live, before, 1);
      DecayBand(tlb, idx[1]);
      idx := idx[0 := idx[0] + idx[1]];
      var bin := 1;
      while bin < IMPORTANCE_INDEX_SIZE - 1
        invariant 1 <= bin <= IMPORTANCE_INDEX_SIZE - 1
        invariant Shifted(before, idx, bin)
        invariant tlb.Mirrors() && tlb.avs == DecayOf(avs, InBins(avs, live, bin))
      {
        InNextBin(avs, live, before, bin + 1);
        idx := idx[bin := idx[bin + 1]];
        DecayBand(tlb, idx[bin]);
        bin := bin + 1;
      }
      InAllBins(avs, live);
      ShiftedOk(before, idx, live, avs);
      idx := idx[bin := {}];
    }

    /** Emits an old atom, after everything old that names it, if nothing that names it stays.
        `stack` holds the atoms on whose behalf this one is looked at. */
    static method ExtractOld(tlb: TLB, minSTI: Short, h: Handle, ghost live: set<Handle>, ghost stack: set<Handle>)
      returns (result: seq<Handle>)
      requires tlb.Mirrors() && LinksPointBack(GraphOf(tlb.handleMap)) && Closed(GraphOf(tlb.handleMap), live)
      requires IncomingOk(GraphOf(tlb.handleMap), live, tlb.inc)
      requires h in live && h in tlb.handleMap && tlb.avs[h].IsOld(minSTI)
      requires stack <= tlb.decayed && forall s :: s in stack ==> s < h
      requires Swept(GraphOf(tlb.handleMap), live, tlb.avs, minSTI, tlb.decayed - stack)
      modifies tlb`decayed, tlb.atoms`removedByDecay
      ensures tlb.Mirrors() && old(tlb.decayed) <= tlb.decayed
      ensures Swept(GraphOf(tlb.handleMap), live, tlb.avs, minSTI, tlb.decayed - stack)
      ensures h in tlb.decayed <==> DeepOld(GraphOf(tlb.handleMap), live, tlb.avs, minSTI, h)
      ensures ElementsOf(result) == tlb.decayed - old(tlb.decayed)
      ensures NoRepeats(result) && TargetsFirst(GraphOf(tlb.handleMap), result)
      decreases tlb.brkUuid - h
    {
      hide *;
      ghost var g, inc, avs, before := GraphOf(tlb.handleMap), tlb.inc, tlb.avs, tlb.decayed;
      result := [];
      NothingListed(g);
      var atom := GetAtom(tlb, h);
      if atom.removedByDecay {
        EmittedIsDeepOld(g, live, avs, minSTI, before - stack, h);
        assert before - before == {};
        return;
      }
      tlb.SetRemovedByDecay(h, true);
      OntoStack(before, stack, h);
      IncomingLater(g, live, inc, h);
      Known(tlb, live);
      var incoming := atom.incoming;
      for k := 0 to |incoming|
        invariant tlb.Mirrors() && before + {h} <= tlb.decayed
        invariant Swept(g, live, avs, minSTI, tlb.decayed - (stack + {h}))
        invariant ElementsOf(result) == tlb.decayed - before - {h}
        invariant NoRepeats(result) && TargetsFirst(g, result)
        invariant forall j :: 0 <= j < k && DeepOld(g, live, avs, minSTI, incoming[j]) ==> incoming[j] in tlb.decayed
      {
        var i := incoming[k];
        assert i in inc[h];
        var a := GetAtom(tlb, i);
        if a.av.IsOld(minSTI) {
          ghost var decayed := tlb.decayed;
          var more := ExtractOld(tlb, minSTI, i, live, stack + {h});
          LaterFirst(g, live, avs, minSTI, more, result, tlb.decayed, decayed, before, stack, h);
          result := more + result;
        } else {
          NotOld(g, live, avs, minSTI, i);
        }
      }
      for k := 0 to |incoming|
        invariant forall j :: 0 <= j < k ==> incoming[j] in tlb.decayed
      {
        assert incoming[k] in inc[h];
        var a := GetAtom(tlb, incoming[k]);
        if !a.removedByDecay {
          SweptNot(g, live, inc, avs, minSTI, h, incoming[k]);
          OffStack(tlb.decayed, before, stack, h);
          tlb.SetRemovedByDecay(h, false);
          return;
        }
      }
      SweptOneMore(g, live, inc, avs, minSTI, tlb.decayed - (stack + {h}), h);
      LastFirst(g, live, avs, minSTI, result, tlb.decayed, before, stack, h);
      result := [h] + result;
    }

    /** Emits every atom that is old together with all that names it, once. */
    method Sweep(tlb: TLB, minSTI: Short, ghost live: set<Handle>) returns (oldAtoms: seq<Handle>)
      requires tlb.Mirrors() && LinksPointBack(GraphOf(tlb.handleMap)) && Closed(GraphOf(tlb.handleMap), live)
      requires IncomingOk(GraphOf(tlb.handleMap), live, tlb.inc)
      requires Ok(tlb.avs, live) && tlb.decayed == {}
      modifies tlb`decayed, tlb.atoms`removedByDecay
      ensures tlb.Mirrors() && tlb.decayed == AllDeepOld(GraphOf(tlb.handleMap), live, tlb.avs, minSTI)
      ensures LetGo(GraphOf(tlb.handleMap), live, tlb.avs, minSTI, tlb.decayed)
      ensures Closed(GraphOf(tlb.handleMap), live - tlb.decayed)
      ensures ElementsOf(oldAtoms) == tlb.decayed && NoRepeats(oldAtoms)
      ensures TargetsFirst(GraphOf(tlb.handleMap), oldAtoms)
    {
      hide *;
      ghost var g, avs := GraphOf(tlb.handleMap), tlb.avs;
      oldAtoms := [];
      NothingListed(g);
      NothingSwept(g, live, avs, minSTI);
      BandsFit(minSTI);
      InLive(avs, live);
      Known(tlb, live);
      for bin := 0 to ImportanceBin(minSTI) + 1
        invariant tlb.Mirrors() && Swept(g, live, avs, minSTI, tlb.decayed)
        invariant ElementsOf(oldAtoms) == tlb.decayed && NoRepeats(oldAtoms) && TargetsFirst(g, oldAtoms)
        invariant forall b, h :: 0 <= b < bin && h in idx[b] && DeepOld(g, live, avs, minSTI, h) ==> h in tlb.decayed
      {
        var todo := idx[bin];
        while todo != {}
          invariant todo <= idx[bin]
          invariant tlb.Mirrors() && Swept(g, live, avs, minSTI, tlb.decayed)
          invariant ElementsOf(oldAtoms) == tlb.decayed && NoRepeats(oldAtoms) && TargetsFirst(g, oldAtoms)
          invariant forall b, h :: 0 <= b < bin && h in idx[b] && DeepOld(g, live, avs, minSTI, h) ==> h in tlb.decayed
          invariant forall h :: h in idx[bin] - todo && DeepOld(g, live, avs, minSTI, h) ==> h in tlb.decayed
          decreases todo
        {
          var h :| h in todo;
          todo := todo - {h};
          var atom := GetAtom(tlb, h);
          if atom.av.IsOld(minSTI) {
            ghost var mid := tlb.decayed;
            assert mid - {} == mid;
            var more := ExtractOld(tlb, minSTI, h, live, {});
            assert tlb.decayed - {} == tlb.decayed;
            LaterFirstInSweep(g, live, avs, minSTI, more, oldAtoms, tlb.decayed, mid);
            oldAtoms := more + oldAtoms;
          } else {
            NotOld(g, live, avs, minSTI, h);
          }
        }
      }
      SweptAllHere(g, live, avs, minSTI, tlb.decayed);
      OnlyDeepOldGo(g, live, avs, minSTI, tlb.decayed);
    }

    lemma InLive(avs: map<Handle, AttentionValue>, live: set<Handle>)
      requires Ok(avs, live)
      ensures |idx| == IMPORTANCE_INDEX_SIZE + 1 && BinsOk(idx, live, ImportanceBins(avs))
      ensures forall b :: 0 <= b < |idx| ==> idx[b] <= live
    {
    }

    static lemma BandsFit(threshold: Short)
      ensures ImportanceBin(threshold) < IMPORTANCE_INDEX_SIZE
    {
    }

    lemma SweptAllHere(g: Graph, live: set<Handle>, avs: map<Handle, AttentionValue>, threshold: Short,
                       out: set<Handle>)
      requires Ok(avs, live) && Swept(g, live, avs, threshold, out)
      requires forall b, h ::
        0 <= b <= ImportanceBin(threshold) < |idx| && h in idx[b] && DeepOld(g, live, avs, threshold, h) ==> h in out
      ensures out == AllDeepOld(g, live, avs, threshold) && Closed(g, live - out)
    {
      hide BinsOk, DeepOld, Swept, Closed;
      SweptAll(g, live, avs, threshold, idx, out);
    }

    /** One round of forgetting: all atoms lose importance, then the old ones are emitted. */
    method DecayShortTermImportance(tlb: TLB, minSTI: Short, ghost live: set<Handle>) returns (oldAtoms: seq<Handle>)
      requires tlb.Mirrors() && LinksPointBack(GraphOf(tlb.handleMap)) && Closed(GraphOf(tlb.handleMap), live)
      requires IncomingOk(GraphOf(tlb.handleMap), live, tlb.inc)
      requires Ok(tlb.avs, live) && tlb.decayed == {}
      modifies this`idx, tlb`avs, tlb`decayed, tlb.atoms`av, tlb.atoms`removedByDecay
      ensures tlb.Mirrors() && Ok(tlb.avs, live) && tlb.avs == DecayOf(old(tlb.avs), live)
      ensures LostOneUnit(old(tlb.avs), live, tlb.avs)
      ensures LetGo(GraphOf(tlb.handleMap), live, tlb.avs, minSTI, tlb.decayed)
      ensures tlb.decayed == AllDeepOld(GraphOf(tlb.handleMap), live, tlb.avs, minSTI)
      ensures Closed(GraphOf(tlb.handleMap), live - tlb.decayed)
      ensures ElementsOf(oldAtoms) == tlb.decayed && NoRepeats(oldAtoms)
      ensures TargetsFirst(GraphOf(tlb.handleMap), oldAtoms)
    {
      hide *;
      Known(tlb, live);
      OnlyDecayLoses(tlb.avs, live, DecayOf(tlb.avs, live));
      ShiftBins(tlb, live);
      oldAtoms := Sweep(tlb, minSTI, live);
    }

    /** The loop that `ShiftBins` stands in for: every atom decays and changes bins on its own. */
    method DecayOneByOne(tlb: TLB, ghost live: set<Handle>)
      requires tlb.Mirrors() && Ok(tlb.avs, live) && live <= tlb.handleMap.Keys
      modifies this`idx, tlb`avs, tlb.atoms`av
      ensures tlb.Mirrors() && tlb.avs == DecayOf(old(tlb.avs), live) && Ok(tlb.avs, live)
    {
      hide BinsOk, Numbered, IncomingMirrored, AttentionMirrored, MarkedMirrored, DecayedMirrored, DecayOf, InBins;
      hide ImportanceBins;
      ghost var avs := tlb.avs;
      Known(tlb, live);
      InNoBins(avs, live);
      for bin := 0 to IMPORTANCE_INDEX_SIZE
        invariant tlb.Mirrors() && Ok(tlb.avs, live)
        invariant tlb.avs == DecayOf(avs, InBins(avs, live, Before(bin)))
      {
        BandNow(avs, live, idx, bin);
        DecayBandInto(tlb, bin, live);
      }
      InAllBins(avs, live);
    }

    /** One bin of that loop. */
    method DecayBandInto(tlb: TLB, bin: nat, ghost live: set<Handle>)
      requires tlb.Mirrors() && Ok(tlb.avs, live) && live <= tlb.handleMap.Keys && bin < IMPORTANCE_INDEX_SIZE
      modifies this`idx, tlb`avs, tlb.atoms`av
      ensures tlb.Mirrors() && Ok(tlb.avs, live) && tlb.avs == DecayOf(old(tlb.avs), old(idx)[bin])
    {
      hide *;
      ghost var before, avs := idx, tlb.avs;
      InLive(avs, live);
      Known(tlb, live);
      MovingDownBegins(avs, before, bin);
      var todo := idx[bin];
      var moved: set<Handle> := {};
      while todo != {}
        invariant tlb.Mirrors() && MovingDown(avs, before, bin, todo, tlb.avs, idx, moved)
        decreases todo
      {
        var h :| h in todo;
        MovingDownNext(avs, live, before, bin, todo, tlb.avs, idx, moved, h);
        Known(tlb, live);
        var newbin := DecayAtom(tlb, h);
        if newbin != bin {
          idx := idx[newbin := idx[newbin] + {h}];
          moved := moved + {h};
        }
        todo := todo - {h};
      }
      MovingDownEnds(avs, live, before, bin, tlb.avs, idx, moved);
      idx := idx[bin := idx[bin] - moved];
      OkAgain(tlb.avs, live);
    }

    /** Decays one atom, and tells the bin that it belongs to then. */
    method DecayAtom(tlb: TLB, h: Handle) returns (newbin: nat)
      requires tlb.Mirrors() && h in tlb.handleMap && h in tlb.avs
      modifies tlb`avs, tlb.atoms`av
      ensures tlb.Mirrors() && tlb.avs == old(tlb.avs)[h := old(tlb.avs)[h].Decayed()]
      ensures newbin == ImportanceBin(old(tlb.avs)[h].Decayed().sti)
    {
      hide *;
      var atom := GetAtom(tlb, h);
      tlb.SetAttentionValue(h, atom.av.Decayed());
      atom := GetAtom(tlb, h);
      newbin := ImportanceBin(atom.av.sti);
    }

    lemma OkAgain(avs: map<Handle, AttentionValue>, live: set<Handle>)
      requires |idx| == IMPORTANCE_INDEX_SIZE + 1 && BinsOk(idx, live, ImportanceBins(avs))
      ensures Ok(avs, live)
    {
    }
  }

  /** The block move and the loop it stands in for end with the same bins, from the same start. */
  method BothDecays(index: ImportanceIndex, tlb: TLB, index': ImportanceIndex, tlb': TLB, ghost live: set<Handle>)
    requires index != index' && tlb != tlb' && tlb.atoms !! tlb'.atoms
    requires tlb.Mirrors() && tlb'.Mirrors() && live <= tlb.handleMap.Keys && live <= tlb'.handleMap.Keys
    requires index.Ok(tlb.avs, live) && index'.idx == index.idx && tlb'.avs == tlb.avs
    modifies index`idx, tlb`avs, tlb.atoms`av, index'`idx, tlb'`avs, tlb'.atoms`av
    ensures index'.idx == index.idx && tlb'.avs == tlb.avs
  {
    hide *;
    index.InLive(tlb.avs, live);
    index'.OkAgain(tlb'.avs, live);
    index.ShiftBins(tlb, live);
    index'.DecayOneByOne(tlb', live);
    index.InLive(tlb.avs, live);
    index'.InLive(tlb'.avs, live);
    BinsUnique(index.idx, index'.idx, live, ImportanceBins(tlb.avs));
  }
}
