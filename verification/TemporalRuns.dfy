/** Whole runs of the table of (handle, time) pairs (opencog/atomspace/TemporalTable.cc). */
module TemporalRuns {
  import opened Temporals
  import opened Handles
  import opened TemporalRelation
  import opened TemporalCriteria
  import opened TemporalResults
  import opened TemporalSteps
  import opened TemporalRemovals
  import opened TemporalTables

  /** The pairs, the handles with a right tail pointer, and those whose tail pointer points to a removed
      cell. */
  datatype State = State(pairs: set<(Handle, Time)>, right: set<Handle>, lost: set<Handle>)

  datatype Operation =
    | AddPair(h: Handle, time: Time)
    | RemovePairs(h: Handle, t: Temporal, criterion: TemporalRelationship)
  {
    predicate Ok() {
      RemovePairs? ==> t.Proper() || t == UNDEFINED_TEMPORAL
    }
  }

  /** What an operation does to a plain set of pairs. A removal takes a right tail pointer along with the
      last pair of its handle, or leaves it behind. */
  ghost function Applied(s: State, op: Operation): State
    requires op.Ok()
  {
    match op
    case AddPair(h, t) => State(s.pairs + {(h, t)}, s.right + {h}, s.lost)
    case RemovePairs(h, t, c) =>
      var gone := Gone(s.pairs, h, t, c);
      var right := set g | g in s.right && !LastGone(s.pairs, g, gone);
      var stranded := set g | g in s.right && Stranded(s.pairs, s.right, h, t, c, g);
      State(s.pairs - gone, right, s.lost + stranded)
  }

  /** Nothing is added for a handle whose tail pointer has been left behind. */
  predicate Allowed(s: State, op: Operation) {
    op.AddPair? ==> op.h !in s.lost
  }

  ghost function After(ops: seq<Operation>): State
    requires forall i :: 0 <= i < |ops| ==> ops[i].Ok()
  {
    if ops == [] then State({}, {}, {}) else Applied(After(ops[..|ops| - 1]), ops[|ops| - 1])
  }

  lemma AfterNone(ops: seq<Operation>)
    requires forall i :: 0 <= i < |ops| ==> ops[i].Ok()
    ensures After(ops[..0]) == State({}, {}, {})
  {
  }

  lemma AfterNext(ops: seq<Operation>, i: nat)
    requires forall i :: 0 <= i < |ops| ==> ops[i].Ok()
    requires i < |ops|
    ensures After(ops[..i + 1]) == Applied(After(ops[..i]), ops[i])
  {
    hide Rank, Applied;
    assert ops[..i + 1][..i] == ops[..i];
  }

  lemma AddSays(s: State, h: Handle, t: Time)
    ensures Applied(s, AddPair(h, t)) == State(s.pairs + {(h, t)}, s.right + {h}, s.lost)
  {
    hide Rank;
  }

  /** What a removal does to the tail pointers is what the plain state tells. */
  lemma RemovalSays(s: State, op: Operation, right': set<Handle>, lost': set<Handle>)
    requires op.RemovePairs? && op.Ok()
    requires TailsFollow(s.pairs, s.right, s.lost, op.h, op.t, op.criterion, right', lost')
    ensures Applied(s, op) == State(s.pairs - Gone(s.pairs, op.h, op.t, op.criterion), right', lost')
  {
    hide Rank, Gone, LastGone;
    var stranded := set g | g in s.right && Stranded(s.pairs, s.right, op.h, op.t, op.criterion, g);
    assert forall g :: Stranded(s.pairs, s.right, op.h, op.t, op.criterion, g) ==> g in s.right;
    hide Stranded;
    assert lost' == s.lost + stranded;
    assert right' == set g | g in s.right && !LastGone(s.pairs, g, Gone(s.pairs, op.h, op.t, op.criterion));
  }

  /** The table meets its invariants and denotes the plain state. */
  ghost predicate Denotes(table: TemporalTable, s: State)
    reads table, table.temporalIndexTable, table.timeline, table.cells
  {
    && table.Valid() && table.TailsSound() && table.Relation() == s.pairs
    && table.RightTails() == s.right && table.LostTails() == s.lost
  }

  method Perform(table: TemporalTable, op: Operation, ghost s: State)
    requires Denotes(table, s) && op.Ok() && Allowed(s, op)
    modifies table, table.temporalIndexTable, table.timeline, table.cells
    ensures Denotes(table, Applied(s, op))
    ensures fresh(table.cells - old(table.cells))
    ensures forall k :: 0 <= k < |table.timeline| ==>
      table.timeline[k] in old(table.timeline) || fresh(table.timeline[k])
    ensures table.temporalIndexTable == old(table.temporalIndexTable) || fresh(table.temporalIndexTable)
  {
    hide *;
    DenotesParts(table, s);
    OperationMeans(table, s, op);
    if op.AddPair? {
      var r := table.Add(op.h, op.time);
      AddSays(s, op.h, op.time);
    } else {
      var r := table.Remove(op.h, op.t, op.criterion);
      RemovalSays(s, op, table.RightTails(), table.LostTails());
    }
    DenotesAgain(table);
  }

  lemma OperationMeans(table: TemporalTable, s: State, op: Operation)
    requires op.Ok() && Allowed(s, op) && table.TailsSound() && table.LostTails() == s.lost
    ensures op.RemovePairs? ==> op.t.Proper() || op.t == UNDEFINED_TEMPORAL
    ensures op.AddPair? ==> table.TailUsable(op.h) && op == AddPair(op.h, op.time)
  {
    hide Rank, TailRight;
  }

  lemma DenotesParts(table: TemporalTable, s: State)
    requires Denotes(table, s)
    ensures table.Valid() && table.TailsSound()
    ensures s == State(table.Relation(), table.RightTails(), table.LostTails())
  {
    hide table.Valid, table.TailsSound, table.Relation, table.RightTails, table.LostTails;
  }

  lemma DenotesAgain(table: TemporalTable)
    requires table.Valid() && table.TailsSound()
    ensures Denotes(table, State(table.Relation(), table.RightTails(), table.LostTails()))
  {
    hide table.Valid, table.TailsSound, table.Relation, table.RightTails, table.LostTails;
  }

  /** Any run from an empty table leaves all parts of the table in agreement with the plain state, tail
      pointers included, as long as nothing is added for a handle whose own tail pointer was left behind.
      Whether that happens can be told from the plain state. */
  method Run(ops: seq<Operation>) returns (table: TemporalTable)
    requires forall i :: 0 <= i < |ops| ==> ops[i].Ok()
    requires forall i :: 0 <= i < |ops| ==> Allowed(After(ops[..i]), ops[i])
    ensures fresh(table) && table.Valid() && table.TailsSound()
    ensures State(table.Relation(), table.RightTails(), table.LostTails()) == After(ops)
    ensures fresh(table.temporalIndexTable) && fresh(table.cells)
    ensures forall k :: 0 <= k < |table.timeline| ==> fresh(table.timeline[k])
  {
    hide *;
    table := new TemporalTable();
    AfterNone(ops);
    DenotesAgain(table);
    for i := 0 to |ops|
      invariant fresh(table) && fresh(table.temporalIndexTable) && fresh(table.cells)
      invariant forall k :: 0 <= k < |table.timeline| ==> fresh(table.timeline[k])
      invariant Denotes(table, After(ops[..i]))
    {
      AfterNext(ops, i);
      Perform(table, ops[i], After(ops[..i]));
    }
    assert ops[..|ops|] == ops;
    DenotesParts(table, After(ops));
  }

  // ------------------------------------------------------- tail pointers that are left behind

  const EARLY: Time := Temporal(1, 1, false)
  const LATE: Time := Temporal(2, 2, false)

  /** Handle 1 has one time; removing the time before the later one takes it. */
  const PREVIOUS_RUN := [AddPair(1, EARLY), RemovePairs(1, LATE, PREVIOUS_BEFORE_START_OF)]

  lemma PreviousStrands()
    ensures forall i :: 0 <= i < |PREVIOUS_RUN| ==> PREVIOUS_RUN[i].Ok()
    ensures forall i :: 0 <= i < |PREVIOUS_RUN| ==> Allowed(After(PREVIOUS_RUN[..i]), PREVIOUS_RUN[i])
    ensures 1 in After(PREVIOUS_RUN).lost
  {
    var ops := PREVIOUS_RUN;
    AfterNone(ops);
    AfterNext(ops, 0);
    AfterNext(ops, 1);
    assert ops[..2] == ops;
    OneStranded({(1, EARLY)});
  }

  lemma OneStranded(pairs: set<(Handle, Time)>)
    requires pairs == {(1, EARLY)}
    ensures Stranded(pairs, {1}, 1, LATE, PREVIOUS_BEFORE_START_OF, 1)
  {
    assert (1, EARLY) in pairs && TimesOf(pairs, 1) == {EARLY};
    assert EARLY in Selected({EARLY}, LATE, PREVIOUS_BEFORE_START_OF);
    assert (1, EARLY) in Gone(pairs, 1, LATE, PREVIOUS_BEFORE_START_OF);
  }

  /** The tail pointer is left behind by a criterion for the previous time. */
  method StrandedByPrevious() returns (table: TemporalTable)
    ensures table.Valid() && 1 in table.LostTails()
  {
    hide *;
    PreviousStrands();
    table := Run(PREVIOUS_RUN);
  }

  /** Handle 1 has two times; removing the later one for all handles leaves the earlier one. */
  const EXACT_RUN := [AddPair(1, EARLY), AddPair(1, LATE), RemovePairs(UNDEFINED_HANDLE, LATE, EXACT)]

  lemma ExactStrands()
    ensures forall i :: 0 <= i < |EXACT_RUN| ==> EXACT_RUN[i].Ok()
    ensures forall i :: 0 <= i < |EXACT_RUN| ==> Allowed(After(EXACT_RUN[..i]), EXACT_RUN[i])
    ensures 1 in After(EXACT_RUN).lost
  {
    var ops := EXACT_RUN;
    AfterNone(ops);
    AfterNext(ops, 0);
    AfterNext(ops, 1);
    AfterNext(ops, 2);
    assert ops[..3] == ops;
    AllStranded({(1, EARLY), (1, LATE)});
  }

  lemma AllStranded(pairs: set<(Handle, Time)>)
    requires pairs == {(1, EARLY), (1, LATE)}
    ensures Stranded(pairs, {1}, UNDEFINED_HANDLE, LATE, EXACT, 1)
  {
    assert (1, EARLY) in pairs && (1, LATE) in pairs;
    assert TimesOf(pairs, 1) == {EARLY, LATE};
    assert LATE in AllTimes(pairs);
    var gone := Gone(pairs, UNDEFINED_HANDLE, LATE, EXACT);
    assert (1, LATE) in gone && (1, EARLY) !in gone;
  }

  /** The tail pointer is left behind by a removal for all handles. */
  method StrandedByExact() returns (table: TemporalTable)
    ensures table.Valid() && 1 in table.LostTails()
  {
    hide *;
    ExactStrands();
    table := Run(EXACT_RUN);
  }
}
