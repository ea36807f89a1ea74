/** The map from handles to atoms (opencog/atomspace/TLB.h), and the fields of the atoms in it. */
module TLBs {
  import opened Wrappers
  import opened Handles
  import opened Atoms
  import opened AtomGraph

  ghost function GraphOf(m: map<Handle, Atom>): Graph {
    map h | h in m :: m[h].key
  }

  ghost predicate Numbered(m: map<Handle, Atom>, atoms: set<Atom>, brk: nat)
    reads atoms`handle, atoms`inTable
  {
    forall h :: h in m ==> h < brk && h != UNDEFINED_HANDLE && m[h] in atoms && m[h].handle == h && m[h].inTable
  }

  ghost predicate IncomingMirrored(m: map<Handle, Atom>, atoms: set<Atom>, inc: map<Handle, seq<Handle>>)
    reads atoms`incoming
  {
    inc.Keys == m.Keys && forall h :: h in m ==> m[h] in atoms && m[h].incoming == inc[h]
  }

  ghost predicate AttentionMirrored(m: map<Handle, Atom>, atoms: set<Atom>, avs: map<Handle, AttentionValue>)
    reads atoms`av
  {
    avs.Keys == m.Keys && forall h :: h in m ==> m[h] in atoms && m[h].av == avs[h]
  }

  ghost predicate MarkedMirrored(m: map<Handle, Atom>, atoms: set<Atom>, marked: set<Handle>)
    reads atoms`markedForRemoval
  {
    marked <= m.Keys && forall h :: h in m ==> m[h] in atoms && (m[h].markedForRemoval <==> h in marked)
  }

  ghost predicate DecayedMirrored(m: map<Handle, Atom>, atoms: set<Atom>, decayed: set<Handle>)
    reads atoms`removedByDecay
  {
    decayed <= m.Keys && forall h :: h in m ==> m[h] in atoms && (m[h].removedByDecay <==> h in decayed)
  }

  /** The other atoms keep their handles, whatever happens to the handle of this one. */
  lemma Others(m: map<Handle, Atom>, atoms: set<Atom>, brk: nat, h: Handle)
    requires Numbered(m, atoms, brk) && h in m
    ensures Numbered(m - {h}, atoms - {m[h]}, brk) && m[h] in atoms
  {
  }

  lemma NumberedAmong(m: map<Handle, Atom>, some: set<Atom>, atoms: set<Atom>, brk: nat)
    requires Numbered(m, some, brk) && some <= atoms
    ensures Numbered(m, atoms, brk)
  {
  }

  /** A fresh atom comes in. */
  lemma Entered(m: map<Handle, Atom>, atoms: set<Atom>, inc: map<Handle, seq<Handle>>,
                avs: map<Handle, AttentionValue>, marked: set<Handle>, decayed: set<Handle>, h: Handle, atom: Atom)
    requires IncomingMirrored(m, atoms, inc) && AttentionMirrored(m, atoms, avs)
    requires MarkedMirrored(m, atoms, marked) && DecayedMirrored(m, atoms, decayed)
    requires h !in m && atom.incoming == [] && atom.av == DEFAULT_AV && !atom.markedForRemoval && !atom.removedByDecay
    ensures IncomingMirrored(m[h := atom], atoms + {atom}, inc[h := []])
    ensures AttentionMirrored(m[h := atom], atoms + {atom}, avs[h := DEFAULT_AV])
    ensures MarkedMirrored(m[h := atom], atoms + {atom}, marked)
    ensures DecayedMirrored(m[h := atom], atoms + {atom}, decayed)
  {
  }

  /** An atom leaves. */
  lemma Left(m: map<Handle, Atom>, atoms: set<Atom>, inc: map<Handle, seq<Handle>>,
             avs: map<Handle, AttentionValue>, marked: set<Handle>, decayed: set<Handle>, h: Handle)
    requires IncomingMirrored(m, atoms, inc) && AttentionMirrored(m, atoms, avs)
    requires MarkedMirrored(m, atoms, marked) && DecayedMirrored(m, atoms, decayed)
    ensures IncomingMirrored(m - {h}, atoms, inc - {h}) && AttentionMirrored(m - {h}, atoms, avs - {h})
    ensures MarkedMirrored(m - {h}, atoms, marked - {h}) && DecayedMirrored(m - {h}, atoms, decayed - {h})
  {
  }

  class TLB {
    var handleMap: map<Handle, Atom>
    // The next handle to give out.
    var brkUuid: nat

    // The atoms, and what their fields hold, by handle.
    ghost var atoms: set<Atom>
    ghost var inc: map<Handle, seq<Handle>>
    ghost var avs: map<Handle, AttentionValue>
    ghost var marked: set<Handle>
    ghost var decayed: set<Handle>

    constructor ()
      ensures Mirrors() && handleMap == map[] && atoms == {} && brkUuid == 1
      ensures inc == map[] && avs == map[] && marked == {} && decayed == {}
    {
      handleMap, brkUuid, atoms, inc, avs, marked, decayed := map[], 1, {}, map[], map[], {}, {};
    }

    ghost predicate Mirrors()
      reads this, atoms`handle, atoms`inTable, atoms`incoming, atoms`av, atoms`markedForRemoval, atoms`removedByDecay
    {
      && Numbered(handleMap, atoms, brkUuid)
      && IncomingMirrored(handleMap, atoms, inc)
      && AttentionMirrored(handleMap, atoms, avs)
      && MarkedMirrored(handleMap, atoms, marked)
      && DecayedMirrored(handleMap, atoms, decayed)
    }

    predicate IsValidHandle(h: Handle)
      reads this`handleMap, this`brkUuid
    {
      h != UNDEFINED_HANDLE && h < brkUuid && h in handleMap
    }

    /** The handle of a new atom is larger than all others. */
    method AddAtom(atom: Atom) returns (h: Handle)
      requires Mirrors() && atom.Unused() && atom.inTable && atom !in atoms && brkUuid < UNDEFINED_HANDLE
      modifies this`handleMap, this`brkUuid, this`atoms, this`inc, this`avs, atom`handle
      ensures Mirrors()
      ensures h == old(brkUuid) && brkUuid == h + 1 && h !in old(handleMap)
      ensures handleMap == old(handleMap)[h := atom] && atoms == old(atoms) + {atom}
      ensures inc == old(inc)[h := []] && avs == old(avs)[h := DEFAULT_AV]
    {
      hide IncomingMirrored, AttentionMirrored, MarkedMirrored, DecayedMirrored;
      h := brkUuid;
      brkUuid := brkUuid + 1;
      handleMap := handleMap[h := atom];
      atom.handle := h;
      atoms, inc, avs := atoms + {atom}, inc[h := []], avs[h := DEFAULT_AV];
      Entered(old(handleMap), old(atoms), old(inc), old(avs), marked, decayed, h, atom);
    }

    /** An atom is deleted: none may name it any more, and the atoms it names must still be there. */
    method RemoveAtom(h: Handle)
      requires Mirrors() && h in handleMap && inc[h] == []
      requires forall t :: t in Outgoing(GraphOf(handleMap)[h]) ==> t in handleMap
      modifies this`handleMap, this`inc, this`avs, this`marked, this`decayed, atoms`handle
      ensures Mirrors()
      ensures handleMap == old(handleMap) - {h} && inc == old(inc) - {h} && avs == old(avs) - {h}
      ensures marked == old(marked) - {h} && decayed == old(decayed) - {h}
    {
      hide *;
      MirrorsParts();
      Left(handleMap, atoms, inc, avs, marked, decayed, h);
      ForgetHandle(h);
      ForgetMirrored(h);
      MirrorsAgain();
    }

    ghost method ForgetMirrored(h: Handle)
      modifies this`inc, this`avs, this`marked, this`decayed
      ensures inc == old(inc) - {h} && avs == old(avs) - {h}
      ensures marked == old(marked) - {h} && decayed == old(decayed) - {h}
    {
      inc, avs, marked, decayed := inc - {h}, avs - {h}, marked - {h}, decayed - {h};
    }

    /** The atom is no longer found under its handle, and no longer has it. */
    method ForgetHandle(h: Handle)
      requires Numbered(handleMap, atoms, brkUuid) && h in handleMap
      modifies this`handleMap, atoms`handle
      ensures Numbered(handleMap, atoms, brkUuid) && handleMap == old(handleMap) - {h}
    {
      var atom := handleMap[h];
      Others(handleMap, atoms, brkUuid, h);
      handleMap := handleMap - {h};
      hide *;
      atom.handle := UNDEFINED_HANDLE;
      NumberedAmong(handleMap, atoms - {atom}, atoms, brkUuid);
    }

    lemma MirrorsParts()
      requires Mirrors()
      ensures Numbered(handleMap, atoms, brkUuid)
      ensures IncomingMirrored(handleMap, atoms, inc) && AttentionMirrored(handleMap, atoms, avs)
      ensures MarkedMirrored(handleMap, atoms, marked) && DecayedMirrored(handleMap, atoms, decayed)
    {
    }

    lemma MirrorsAgain()
      requires Numbered(handleMap, atoms, brkUuid)
      requires IncomingMirrored(handleMap, atoms, inc) && AttentionMirrored(handleMap, atoms, avs)
      requires MarkedMirrored(handleMap, atoms, marked) && DecayedMirrored(handleMap, atoms, decayed)
      ensures Mirrors()
    {
    }

    method MarkForRemoval(h: Handle)
      requires Mirrors() && h in handleMap
      modifies this`marked, atoms`markedForRemoval
      ensures Mirrors() && marked == old(marked) + {h}
    {
      hide IncomingMirrored, AttentionMirrored, DecayedMirrored;
      handleMap[h].markedForRemoval := true;
      marked := marked + {h};
    }

    method UnsetRemovalFlag(h: Handle)
      requires Mirrors() && h in handleMap
      modifies this`marked, atoms`markedForRemoval
      ensures Mirrors() && marked == old(marked) - {h}
    {
      hide IncomingMirrored, AttentionMirrored, DecayedMirrored;
      handleMap[h].markedForRemoval := false;
      marked := marked - {h};
    }

    method SetRemovedByDecay(h: Handle, value: bool)
      requires Mirrors() && h in handleMap
      modifies this`decayed, atoms`removedByDecay
      ensures Mirrors() && decayed == if value then old(decayed) + {h} else old(decayed) - {h}
    {
      hide IncomingMirrored, AttentionMirrored, MarkedMirrored;
      handleMap[h].removedByDecay := value;
      decayed := if value then decayed + {h} else decayed - {h};
    }

    method SetAttentionValue(h: Handle, av: AttentionValue)
      requires Mirrors() && h in handleMap
      modifies this`avs, atoms`av
      ensures Mirrors() && avs == old(avs)[h := av]
    {
      hide IncomingMirrored, MarkedMirrored, DecayedMirrored;
      handleMap[h].av := av;
      avs := avs[h := av];
    }

    method AddIncoming(t: Handle, h: Handle)
      requires Mirrors() && t in handleMap
      modifies this`inc, atoms`incoming
      ensures Mirrors() && inc == old(inc)[t := [h] + old(inc)[t]]
    {
      hide AttentionMirrored, MarkedMirrored, DecayedMirrored;
      handleMap[t].AddIncomingHandle(h);
      inc := inc[t := [h] + inc[t]];
    }

    method RemoveIncoming(t: Handle, h: Handle) returns (r: Result<(), IncomingError>)
      requires Mirrors() && t in handleMap
      modifies this`inc, atoms`incoming
      ensures Mirrors() && (r.Success? <==> h in old(inc)[t])
      ensures inc == if r.Success? then old(inc)[t := RemoveFirst(old(inc)[t], h)] else old(inc)
    {
      hide AttentionMirrored, MarkedMirrored, DecayedMirrored;
      r := handleMap[t].RemoveIncomingHandle(h);
      if r.Success? {
        inc := inc[t := RemoveFirst(inc[t], h)];
      }
    }
  }
}
