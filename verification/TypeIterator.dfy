/** Iteration over the bins of a type index (opencog/atomspace/TypeIndex.cc). */
module TypeIterators {
  import opened Handles
  import opened AtomGraph
  import opened AtomIndexes
  import opened ClassServers

  /** The types asked for: one type, or with its subtypes by a hierarchy of `n` types. */
  datatype Wanted = Wanted(rec: Matrix, n: nat, t: Type, subclass: bool) {
    predicate Fits(b: Type) {
      t == b || (subclass && b < n && t < n && At(rec, t, b))
    }
  }

  /** In how many of the bins from `b` on that are wanted a handle is. */
  ghost function BinCount(w: Wanted, bins: seq<set<Handle>>, b: nat, h: Handle): nat
    decreases |bins| - b
  {
    if b >= |bins| then 0 else (if w.Fits(b) && h in bins[b] then 1 else 0) + BinCount(w, bins, b + 1, h)
  }

  lemma {:induction false} BinCountNone(w: Wanted, bins: seq<set<Handle>>, b: nat, h: Handle)
    requires forall c :: b <= c < |bins| && w.Fits(c) ==> h !in bins[c]
    ensures BinCount(w, bins, b, h) == 0
    decreases |bins| - b
  {
    if b < |bins| {
      BinCountNone(w, bins, b + 1, h);
    }
  }

  lemma {:induction false} BinCountSome(w: Wanted, bins: seq<set<Handle>>, b: nat, h: Handle)
    ensures BinCount(w, bins, b, h) > 0 <==> exists c :: b <= c < |bins| && w.Fits(c) && h in bins[c]
    decreases |bins| - b
  {
    if b < |bins| {
      BinCountSome(w, bins, b + 1, h);
    }
  }

  ghost function WantedBins(w: Wanted, bins: seq<set<Handle>>, b: nat, h: Handle): set<nat> {
    set c: nat | b <= c < |bins| && w.Fits(c) && h in bins[c]
  }

  /** A handle is counted once for every wanted bin that it is in. */
  lemma {:induction false} BinCountSize(w: Wanted, bins: seq<set<Handle>>, b: nat, h: Handle)
    ensures BinCount(w, bins, b, h) == |WantedBins(w, bins, b, h)|
    decreases |bins| - b
  {
    hide Wanted.Fits;
    var rest := WantedBins(w, bins, b + 1, h);
    if b < |bins| {
      BinCountSize(w, bins, b + 1, h);
      if w.Fits(b) && h in bins[b] {
        assert WantedBins(w, bins, b, h) == {b} + rest;
      } else {
        assert WantedBins(w, bins, b, h) == rest;
      }
    } else {
      assert WantedBins(w, bins, b, h) == {};
    }
  }

  /** A handle that is in one bin only is counted once. */
  lemma {:induction false} BinCountOnce(w: Wanted, bins: seq<set<Handle>>, b: nat, h: Handle, c: nat)
    requires b <= c < |bins| && forall d :: b <= d < |bins| ==> (h in bins[d] <==> d == c)
    ensures BinCount(w, bins, b, h) == if w.Fits(c) then 1 else 0
    decreases |bins| - b
  {
    if b == c {
      BinCountNone(w, bins, b + 1, h);
    } else {
      BinCountOnce(w, bins, b + 1, h, c);
    }
  }

  /** In a type index every live atom is counted once if its type is wanted, and nothing else is. */
  lemma TypeIndexCount(w: Wanted, bins: seq<set<Handle>>, g: Graph, live: set<Handle>, h: Handle)
    requires BinsOk(bins, live, TypeBins(g))
    ensures BinCount(w, bins, 0, h) == if h in live && h in g && w.Fits(g[h].atomType) then 1 else 0
  {
    if h in live {
      assert TypeBins(g)[h] == {g[h].atomType};
      assert g[h].atomType in TypeBins(g)[h];
      BinCountOnce(w, bins, 0, h, g[h].atomType);
    } else {
      BinCountNone(w, bins, 0, h);
    }
  }

  /** What the server makes of a type. */
  function WantedOf(server: ClassServer, t: Type, subclass: bool): Wanted
    reads server`recursiveMap, server`nTypes
  {
    Wanted(server.recursiveMap, server.nTypes, t, subclass)
  }

  method Listed(bin: set<Handle>) returns (s: seq<Handle>)
    ensures forall h :: Count(s, h) == if h in bin then 1 else 0
  {
    s := [];
    var todo := bin;
    while todo != {}
      invariant todo <= bin
      invariant forall h :: Count(s, h) == if h in bin && h !in todo then 1 else 0
      decreases todo
    {
      var h :| h in todo;
      todo := todo - {h};
      s := s + [h];
    }
  }

  class TypeIterator {
    const server: ClassServer
    const bins: seq<set<Handle>>
    const atomType: Type
    const subclass: bool
    // What is wanted, by the hierarchy at the start.
    ghost const wanted: Wanted

    // The current bin, and what is left of it; past the last bin at the end.
    var s: nat
    var currtype: Type
    var se: seq<Handle>

    /** Starts at the first handle of the first matching bin that is not empty. */
    constructor (server: ClassServer, bins: seq<set<Handle>>, atomType: Type, subclass: bool)
      ensures this.server == server && this.bins == bins && wanted == WantedOf(server, atomType, subclass)
      ensures Valid() && forall h :: Remaining(h) == BinCount(wanted, bins, 0, h)
    {
      this.server, this.bins, this.atomType, this.subclass := server, bins, atomType, subclass;
      wanted := WantedOf(server, atomType, subclass);
      s, currtype, se := 0, 0, [];
      new;
      hide Count, BinCount;
      CountNone();
      while s < |bins|
        invariant s <= |bins| && currtype == s && se == []
        invariant forall h :: BinCount(wanted, bins, s, h) == BinCount(wanted, bins, 0, h)
        decreases |bins| - s
      {
        NextBin(s);
        if atomType == currtype || (subclass && server.IsA(currtype, atomType)) {
          se := Listed(bins[s]);
          if se != [] {
            return;
          }
          Nothing(bins[s]);
        }
        currtype := currtype + 1;
        s := s + 1;
      }
      NextBin(s);
    }

    lemma Nothing(bin: set<Handle>)
      requires forall h :: Count([], h) == if h in bin then 1 else 0
      ensures bin == {}
    {
      CountNone();
      forall h ensures h !in bin {
        assert Count([], h) == 0;
      }
    }

    /** The bin under the cursor is one that matches, and not empty. */
    ghost predicate Valid()
      reads this
    {
      && s <= |bins| && currtype == s && (s < |bins| <==> se != [])
      && (s < |bins| ==> wanted.Fits(s)) && wanted.t == atomType && wanted.subclass == subclass
    }

    /** How often a handle is still to be visited. */
    ghost function Remaining(h: Handle): nat
      reads this
    {
      Count(se, h) + BinCount(wanted, bins, s + 1, h)
    }

    predicate AtEnd()
      reads this
    {
      s == |bins|
    }

    function Current(): Handle
      reads this
    {
      if s == |bins| || se == [] then UNDEFINED_HANDLE else se[0]
    }

    /** Moves on by one handle, over bins that do not match or are empty. The types looked at go one
        beyond the last bin; no type of that number exists, so that nothing is read there. */
    method Next()
      requires Valid() && server.nTypes < |bins| && wanted == WantedOf(server, atomType, subclass)
      modifies this
      ensures Valid()
      ensures old(AtEnd()) ==> AtEnd()
      ensures !old(AtEnd()) ==> forall h :: old(Remaining(h)) == Remaining(h) + if h == old(Current()) then 1 else 0
      ensures !old(AtEnd()) ==> (|bins| - s < |bins| - old(s) || (s == old(s) && |se| < |old(se)|))
    {
      if s == |bins| {
        return;
      }
      CountTail(se);
      CountNone();
      hide Count, BinCount;
      se := se[1..];
      if se == [] {
        ghost var from := s + 1;
        var more := true;
        while more
          invariant s <= |bins| && currtype == s && from <= s + 1 && se == []
          invariant more <==> s < |bins|
          invariant forall h :: BinCount(wanted, bins, s + 1, h) == BinCount(wanted, bins, from, h)
          decreases |bins| - s
        {
          s := s + 1;
          currtype := currtype + 1;
          NextBin(s);
          if atomType == currtype || (subclass && server.IsA(currtype, atomType)) {
            se := Listed(bins[s]);
            if se != [] {
              return;
            }
            Nothing(bins[s]);
          }
          more := s != |bins|;
        }
      }
    }

    lemma NextBin(b: nat)
      ensures forall h :: BinCount(wanted, bins, b, h) == Here(b, h) + BinCount(wanted, bins, b + 1, h)
    {
    }

    ghost function Here(b: nat, h: Handle): nat {
      if b < |bins| && wanted.Fits(b) && h in bins[b] then 1 else 0
    }

    lemma NothingRemains()
      requires Valid() && AtEnd()
      ensures forall h :: Remaining(h) == 0
    {
      CountNone();
    }

    lemma CountTail(q: seq<Handle>)
      requires q != []
      ensures forall h :: Count(q, h) == Count(q[1..], h) + if h == q[0] then 1 else 0
    {
      assert q == [q[0]] + q[1..];
    }
  }

  /** All handles in the bins of a type, or of a type and its subtypes. */
  method GetHandleSet(server: ClassServer, bins: seq<set<Handle>>, t: Type, subclass: bool)
    returns (result: seq<Handle>)
    requires server.nTypes < |bins|
    ensures forall h :: Count(result, h) == BinCount(WantedOf(server, t, subclass), bins, 0, h)
  {
    hide Count, BinCount;
    ghost var w := WantedOf(server, t, subclass);
    var it := new TypeIterator(server, bins, t, subclass);
    result := [];
    CountNone();
    while !it.AtEnd()
      invariant fresh(it) && it.Valid() && it.bins == bins && it.server == server && it.wanted == w
      invariant forall h :: BinCount(w, bins, 0, h) == Count(result, h) + it.Remaining(h)
      decreases |bins| - it.s, |it.se|
    {
      CountFront(it.Current(), result);
      result := [it.Current()] + result;
      it.Next();
    }
    it.NothingRemains();
  }

  lemma CountFront(x: Handle, q: seq<Handle>)
    ensures forall h :: Count([x] + q, h) == Count(q, h) + if h == x then 1 else 0
  {
  }
}
