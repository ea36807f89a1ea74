/** Atoms (opencog/atomspace/Atom.cc, Link.cc, AttentionValue.cc). */
module Atoms {
  import opened Wrappers
  import opened Handles

  const MIN_SHORT: int := -32768
  const MAX_SHORT: int := 32767

  type Short = x: int | MIN_SHORT <= x <= MAX_SHORT

  datatype AttentionValue = AttentionValue(sti: Short, lti: Short, vlti: nat) {
    /** What the decay may remove. */
    predicate IsOld(threshold: Short) {
      sti < threshold && lti < 1
    }

    /** One unit less of short-term importance, down to the least there is. */
    function Decayed(): AttentionValue {
      if sti != MIN_SHORT then this.(sti := sti - 1) else this
    }
  }

  const DEFAULT_AV := AttentionValue(0, 0, 0)

  /** What makes two atoms the same atom. */
  datatype Key =
    | NodeKey(atomType: nat, name: string)
    | LinkKey(atomType: nat, outgoing: seq<Handle>)

  datatype IncomingError = EmptyIncomingSet | NotInIncomingSet

  class Atom {
    // Fixed when the atom is made.
    const key: Key

    var handle: Handle
    var inTable: bool
    var incoming: seq<Handle>
    var av: AttentionValue
    var markedForRemoval: bool
    var removedByDecay: bool

    constructor Node(atomType: nat, name: string)
      ensures key == NodeKey(atomType, name) && Unused() && !inTable
    {
      key := NodeKey(atomType, name);
      handle, inTable, incoming, av := UNDEFINED_HANDLE, false, [], DEFAULT_AV;
      markedForRemoval, removedByDecay := false, false;
    }

    /** A link of an unordered type sorts the handles it is given. */
    constructor Link(atomType: nat, handles: seq<Handle>, unorderedTypes: set<nat>)
      ensures key == NewLink(atomType, handles, unorderedTypes) && Unused() && !inTable
      ensures Normal(key, unorderedTypes) && multiset(key.outgoing) == multiset(handles)
    {
      NewLinkNormal(atomType, handles, unorderedTypes);
      key := NewLink(atomType, handles, unorderedTypes);
      handle, inTable, incoming, av := UNDEFINED_HANDLE, false, [], DEFAULT_AV;
      markedForRemoval, removedByDecay := false, false;
    }

    /** Not in any map of handles yet. */
    predicate Unused()
      reads this`handle, this`incoming, this`av, this`markedForRemoval, this`removedByDecay
    {
      && handle == UNDEFINED_HANDLE && incoming == [] && av == DEFAULT_AV
      && !markedForRemoval && !removedByDecay
    }

    method AddIncomingHandle(h: Handle)
      modifies this`incoming
      ensures incoming == [h] + old(incoming)
    {
      incoming := [h] + incoming;
    }

    /** Unlinks the first entry for `h`. */
    method RemoveIncomingHandle(h: Handle) returns (r: Result<(), IncomingError>)
      modifies this`incoming
      ensures h in old(incoming) ==> r.Success? && incoming == RemoveFirst(old(incoming), h)
      ensures h !in old(incoming) ==>
        && r == Failure(if old(incoming) == [] then EmptyIncomingSet else NotInIncomingSet)
        && incoming == old(incoming)
    {
      if incoming == [] {
        return Failure(EmptyIncomingSet);
      }
      var i := 0;
      while i < |incoming| && incoming[i] != h
        invariant i <= |incoming|
        invariant forall k :: 0 <= k < i ==> incoming[k] != h
      {
        i := i + 1;
      }
      if i == |incoming| {
        return Failure(NotInIncomingSet);
      }
      RemoveFirstAt(incoming, i, h);
      incoming := incoming[..i] + incoming[i + 1..];
      return Success(());
    }
  }

  function RemoveFirst(s: seq<Handle>, h: Handle): seq<Handle> {
    if s == [] then []
    else if s[0] == h then s[1..]
    else [s[0]] + RemoveFirst(s[1..], h)
  }

  lemma {:induction false} RemoveFirstAt(s: seq<Handle>, i: nat, h: Handle)
    requires i < |s| && s[i] == h && forall k :: 0 <= k < i ==> s[k] != h
    ensures RemoveFirst(s, h) == s[..i] + s[i + 1..]
  {
    if i > 0 {
      RemoveFirstAt(s[1..], i - 1, h);
      assert s[..i] == [s[0]] + s[1..][..i - 1];
    }
  }

  /** Exactly one occurrence goes. */
  lemma {:induction false} RemoveFirstMultiset(s: seq<Handle>, h: Handle)
    requires h in s
    ensures multiset(RemoveFirst(s, h)) == multiset(s) - multiset{h}
  {
    assert s == [s[0]] + s[1..];
    if s[0] != h {
      RemoveFirstMultiset(s[1..], h);
    }
  }

  lemma RemoveFirstCount(s: seq<Handle>, h: Handle)
    requires h in s
    ensures Count(s, h) > 0
    ensures forall x :: Count(RemoveFirst(s, h), x) == if x == h then Count(s, h) - 1 else Count(s, x)
  {
    hide RemoveFirst;
    RemoveFirstMultiset(s, h);
    assert h in multiset(s);
  }

  /** Unordered links keep their outgoing handles sorted. */
  function Normalised(handles: seq<Handle>, unordered: bool): seq<Handle> {
    if unordered then SortHandles(handles) else handles
  }

  /** Two lists of handles make the same unordered link exactly if they are permutations, and the
      same ordered link exactly if they are equal. */
  lemma NormalisedSame(s: seq<Handle>, t: seq<Handle>, unordered: bool)
    ensures multiset(Normalised(s, unordered)) == multiset(s)
    ensures Normalised(s, unordered) == Normalised(t, unordered)
      <==> if unordered then multiset(s) == multiset(t) else s == t
  {
    SortHandlesOk(s);
    SortHandlesOk(t);
    if unordered && multiset(s) == multiset(t) {
      SortedUnique(SortHandles(s), SortHandles(t));
    }
  }

  /** The content of a link made of these handles. */
  function NewLink(atomType: nat, handles: seq<Handle>, unorderedTypes: set<nat>): Key {
    LinkKey(atomType, Normalised(handles, atomType in unorderedTypes))
  }

  /** A link of an unordered type has its outgoing handles sorted. */
  predicate Normal(k: Key, unorderedTypes: set<nat>) {
    k.LinkKey? && k.atomType in unorderedTypes ==> Sorted(k.outgoing)
  }

  lemma NewLinkNormal(atomType: nat, handles: seq<Handle>, unorderedTypes: set<nat>)
    ensures Normal(NewLink(atomType, handles, unorderedTypes), unorderedTypes)
    ensures multiset(NewLink(atomType, handles, unorderedTypes).outgoing) == multiset(handles)
    ensures Normal(LinkKey(atomType, handles), unorderedTypes)
      <==> NewLink(atomType, handles, unorderedTypes) == LinkKey(atomType, handles)
  {
    SortHandlesOk(handles);
    if Sorted(handles) {
      SortedAlready(handles);
    }
  }

  /** A link in normal form is the link made of some handles exactly if it has the type and, for an
      unordered type, a permutation of the handles. */
  lemma MadeOf(k: Key, atomType: nat, handles: seq<Handle>, unorderedTypes: set<nat>)
    requires Normal(k, unorderedTypes)
    ensures k == NewLink(atomType, handles, unorderedTypes) <==> IsLinkOf(k, atomType, handles, unorderedTypes)
  {
    SortHandlesOk(handles);
    if IsLinkOf(k, atomType, handles, unorderedTypes) && atomType in unorderedTypes {
      SortedUnique(k.outgoing, SortHandles(handles));
    }
  }

  /** A link of the type that names these atoms: in this order, or in any order for an unordered type. */
  ghost predicate IsLinkOf(k: Key, atomType: nat, handles: seq<Handle>, unorderedTypes: set<nat>) {
    && k.LinkKey? && k.atomType == atomType
    && if atomType in unorderedTypes then multiset(k.outgoing) == multiset(handles) else k.outgoing == handles
  }
}
