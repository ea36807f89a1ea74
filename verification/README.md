# A model of the OpenCog AtomSpace

The AtomSpace keeps a hypergraph in memory: nodes and links, links naming other atoms by handle, and every atom listing
the links that name it. Beside the set of atoms it keeps indexes by name, by outgoing list, by type, by the types of a
link's targets, and by short-term importance. A temporal table beside it relates handles to times. This project models
these parts and proves that the redundant structures always agree, that the operations on them do what a plain set or
graph would do, and that the shortcuts they take lose nothing.

How it is built:

- **Times** (`Temporal.dfy`). A time is two machine words and a flag; bounds are computed with 64-bit wrap-around.
- **Temporal table** (`TemporalEntry.dfy`, `TemporalIndex.dfy`, `TemporalRelation.dfy`, `TemporalCriteria.dfy`,
  `TemporalScan.dfy`, `TemporalSteps.dfy`, `TemporalResults.dfy`, `TemporalRemoval.dfy`, `TemporalTable.dfy`,
  `TemporalRuns.dfy`). One relation of handles and times
  is held four ways: a sorted linked list per handle with a tail pointer, a map from times to sets of handles, one sorted
  linked list of all times, and an array of pointers into that list for binary search, which may be out of date. The
  linked cells, the array and the counters are modelled as the heap objects they are; ghost sequences say which cells form
  which list.
- **Atoms and their table** (`Handles.dfy`, `Atoms.dfy`, `AtomGraph.dfy`, `TLB.dfy`, `AtomIndexes.dfy`,
  `ImportanceIndex.dfy`, `AtomTableValues.dfy`, `AtomTable.dfy`, `AtomRuns.dfy`). Atoms are objects whose handle, incoming
  list, attention value and flags change; the map of handles keeps ghost copies of these fields by handle, so that the
  graph can be reasoned about as a value. `AtomRuns.dfy` holds the plain model the table refines.
- **Queries and supporting algorithms** (`HandleEntry.dfy`, `Intersection.dfy`, `TypeIterator.dfy`, `ClassServer.dfy`,
  `AtomQuery.dfy`, `QueryRuns.dfy`): in-place list filters, the intersection of many sorted arrays, iteration over type
  bins, the type hierarchy, and queries by outgoing set.
- **Attention funds** (`AtomSpace.dfy`) and **versioned truth values** (`CompositeTruthValue.dfy`).

Methods hide the definitions they do not need (`hide *`) and take their facts from small lemmas.

## Results about whole runs

- `TemporalRuns.Run`: over any run of additions and removals, with a handle or for all handles and by every criterion, all
  four parts of the temporal table denote the set of pairs that a plain set would hold; which tail pointers are right, and
  which point to a removed cell, can be told from the plain state. The run may go on after a tail pointer was left behind;
  only the handle whose tail pointer it is may not be added to.
- `AtomRuns.Run`: over any run of additions, removals, changes of attention and decay sweeps, the atom table and all its
  indexes agree with a plain map of atoms, in which links of unordered types have sorted outgoing lists.
- `AtomSpaces.Run`: over any run without decay, funds and importance together stay constant.

## Where the code does not do what was wanted

- Two different times can compare as equal: the sums of a normal time wrap around (`Temporals.TwinsExist`,
  `Temporals.CompareToZero` say exactly which).
- The temporal table does not refuse such times, and what it promises fails for them: a stored time can be missed by a scan
  that stops early if and only if it ends before it starts, which a normal time does exactly if it wraps and its variance is
  below half the word (`TemporalCriteria.LostIfWrapped`). The table is modelled for times that do not wrap.
- The header describes overlapping as starting or ending within the given time; the code also accepts a time that reaches
  over it on both sides, as the inequality in the same comment does (`TemporalCriteria.OverlapsMeans`, with an instance in
  `TemporalCriteria.OverlapsBeyond`).
- Removing the time before a given one does not look after the tail pointer, and removing times for all handles looks for
  the tail cell only at the head of a list. `TemporalTables.TemporalTable.Remove` says exactly which tail pointers stay
  right and which are left pointing to a removed cell; `TemporalRuns.StrandedByPrevious` and `TemporalRuns.StrandedByExact`
  are runs that leave one behind.
- Declaring a type again below a second parent does not relate the descendants of the type to that parent;
  `ClassServers.ClassServer.AddType` says exactly when the recorded relation stays the closure, and
  `ClassServers.RedeclarationCanFail` declares three types and loses it.
- A query that names valid handles everywhere looks the link up and ignores the types that were also asked for, and for an
  unordered type the positions; `AtomQueries.LookupIsScan` says exactly when that makes no difference, and
  `QueryRuns.LookupIgnoresTypes` is a run with a query that finds a link it should not.
- A query that constrains no position finds nothing instead of all links of its type and arity
  (`AtomQueries.GetHandleSetByOutgoing`); `AtomQueries.OpenIsScan` says exactly when that makes a difference, and
  `QueryRuns.OpenFindsNothing` is a run with a query that misses a link.
- Filtering by link type goes over as many sets as there are positions, although there is a set only for each constrained
  position. It reads a set that is not there exactly if some position is unconstrained, every constrained one has a
  candidate, and not every atom is of the type asked for (`AtomQueries.TooFewSets`, in the contract of
  `AtomQueries.GetHandleSetByOutgoing`); `QueryRuns.OpenReadsNoSet` is a run with such a query.
- A link that names an atom several times can be found several times: the answer to a query lists a link as often as the
  position that gathered it least often (`AtomQueries.GetHandleSetByOutgoing`, `AtomQueries.ListedOnce`);
  `QueryRuns.ListedTwice` is a run with such a query.
- Looking up a link of an unordered type by handles that are not sorted finds nothing, even if they are the handles it was
  made with; `AtomTables.AtomTable.GetLink` says exactly what is found, and `AtomRuns.UnsortedLookup` is a run with such a
  lookup.
- Adding a link with an invalid outgoing handle fails only after the link went into the set of atoms, and leaves the table
  out of step (`AtomTables.AtomTable.Add`, with an instance in `AtomTables.DanglingLink`); the atom space has taken the
  importance of a new atom, which is zero, from its funds by then (`AtomSpaces.AtomSpace.AddLink`).

## Model

| member | source | states |
|---|---|---|
| Temporals.InitAccepts | opencog/atomspace/Temporal.cc:51-78 | Over machine words, making a time succeeds exactly for proper intervals and for normal times whose sum wraps, gives back its arguments, and never gives the undefined time. |
| Temporals.CompareToZero | opencog/atomspace/Temporal.cc:202-252 | Comparison gives zero exactly for equal times and for pairs of normal times that differ by half the word in both fields. |
| Temporals.TwinsExist | opencog/atomspace/Temporal.cc:51-78 | Two different accepted times that compare as equal. |
| Temporals.CompareToIsOrder | opencog/atomspace/Temporal.cc:202-225 | Comparison is antisymmetric and transitive over all times. |
| Temporals.CompareToIsRank | opencog/atomspace/Temporal.cc:125-141 | On proper times comparison is a total order whose zero is equality, and the bounds do not wrap. |
| Temporals.RankFields | opencog/atomspace/Temporal.cc:202-225 | Proper times come in the order of their starts, then of their ends, with the normal one before the uniform one; times of the same place are equal. |
| Temporals.GetLowerBound | opencog/atomspace/Temporal.cc:125-132 | The lower bound of a proper time is its exact, unwrapped value. |
| Temporals.GetUpperBound | opencog/atomspace/Temporal.cc:134-141 | The upper bound of a proper time is its exact, unwrapped value. |
| Temporals.ReadDecimal | opencog/atomspace/Temporal.cc:152-200 | Printing a number in decimal and reading it back gives the number, whatever its length and whatever other text follows. |
| Temporals.NameReachesInit | opencog/atomspace/Temporal.cc:152-200 | Reading the name of a time makes a time from exactly its three parts; what the name looks like is told by NameIs. |
| Temporals.NameRoundTrip | opencog/atomspace/Temporal.cc:152-200 | A time is read back from its name exactly if it is one that can be made. |
| Temporals.NameIs | opencog/atomspace/Temporal.cc:152-163 | A text is the name of a time exactly if its fields are the numeral of a point, or the numerals of the two bounds, or for a normal time those of mean and variance and a one; so the name is fixed, and no numeral has a superfluous zero. |
| Temporals.NameShape | opencog/atomspace/Temporal.cc:152-163 | Names have only digits and colons: no colon exactly for a uniform point, one exactly for another uniform time, two exactly for a normal time; every field is a numeral. |
| Temporals.SomeNames | opencog/atomspace/Temporal.cc:152-163 | The names of a point, of an interval, and of a normal time, letter by letter. |
| Temporals.TimestampIsPoint | opencog/atomspace/Temporal.cc:165-173 | The name made for a time stamp is the name of its point time, and of no other time. |
| Temporals.ReadWord | opencog/atomspace/Temporal.cc:175-193 | A field is read with any blanks and a sign before it: negatives in machine words, too large numbers as the greatest word. |
| Temporals.ReadFlag | opencog/atomspace/Temporal.cc:194-200 | The flag is cut to the range of a long, and is zero exactly if its lower half is then. |
| Temporals.GetFromTimeNodeName | opencog/atomspace/Temporal.cc:175-200 | The walk over the characters, with blanks and signs as the C library reads them, reads what the specification of the format says, or fails as it says. |
| TemporalEntries.Compare | opencog/atomspace/TemporalEntry.cc:130-151 | The sign of the comparison is the order of times. |
| TemporalEntries.Last | opencog/atomspace/TemporalEntry.cc:96-104 | The last cell of a list. |
| TemporalEntries.Contains | opencog/atomspace/TemporalEntry.cc:106-119 | Whether a time is in a sorted list. |
| TemporalEntries.Add | opencog/atomspace/TemporalEntry.cc:186-219 | Splices one fresh cell in at its place; a time that is there already changes nothing. |
| TemporalEntries.Remove | opencog/atomspace/TemporalEntry.cc:153-184 | Unlinks exactly the cells of the time, at the head and behind it. |
| TemporalEntries.InsertedAtIsInsertTime | opencog/atomspace/TemporalEntry.cc:186-219 | A spliced list holds the times of a plain sorted insertion. |
| TemporalEntries.WithoutIsDeleteTime | opencog/atomspace/TemporalEntry.cc:153-184 | A list after unlinking holds the times of a plain deletion. |
| TemporalIndex.IndexEmptyOnlyWithList | opencog/atomspace/TemporalTable.cc:841-864 | Under the index invariant the index is empty only when the list is, so that the search never probes an empty table for a list with entries. |
| TemporalIndex.RebuiltIndexOk | opencog/atomspace/TemporalTable.cc:813-839 | A rebuilt index meets the invariant with no update pending. |
| TemporalIndex.PendingInsert | opencog/atomspace/TemporalTable.cc:112-138 | An insertion that is only counted keeps the invariant as long as the ratio test lets it pass. |
| TemporalIndex.AppendedInsert | opencog/atomspace/TemporalTable.cc:112-138 | An insertion behind the greatest time can be appended to the index. |
| TemporalIndex.PendingRemove | opencog/atomspace/TemporalTable.cc:700-742 | A removal that is only counted keeps the invariant as long as the ratio test lets it pass. |
| TemporalIndex.ReplacedOk | opencog/atomspace/TemporalTable.cc:744-765 | Pointing the slots of a cell to its successor keeps the index sorted and forgets the cell. |
| TemporalIndex.CutOk | opencog/atomspace/TemporalTable.cc:662-742 | Cutting off the slots of the last cell forgets it. |
| TemporalCriteria.MatchesTimeCriterion | opencog/atomspace/TemporalTable.cc:884-966 | For all thirteen criteria the test agrees with the documented meaning, and tells exactly when a scan stops. |
| TemporalCriteria.OverlapsMeans | opencog/atomspace/TemporalTable.h:48-67 | Overlapping is starting or ending within the given time, or reaching over it on both sides. |
| TemporalCriteria.OverlapsBeyond | opencog/atomspace/TemporalTable.h:48-67 | A time that overlaps without starting or ending within the given one. |
| TemporalCriteria.CriteriaRelate | opencog/atomspace/TemporalTable.h:48-67 | A time starts, and ends, before, within or after the given one, and only one of these; after is the converse of before; including is that the other starts and ends within, and both ways it gives the same bounds; the criteria for next and previous times are starting after or before a bound; and which criteria hold between a time and itself. |
| TemporalCriteria.NothingAfterStop | opencog/atomspace/TemporalTable.cc:884-966 | Where a scan stops, no later time can match. |
| TemporalCriteria.InWordsIsMeaning | opencog/atomspace/TemporalTable.cc:884-966 | The test on machine words, which can be made of wrapped times too, is the documented meaning for times that do not wrap. |
| TemporalCriteria.LostIfWrapped | opencog/atomspace/TemporalTable.cc:144-191 | Among all times that can be made, a match can lie behind a time at which a scan stops if and only if it ends before it starts: a wrapped time whose variance is below half the word. |
| TemporalCriteria.ScanComplete | opencog/atomspace/TemporalTable.cc:144-191 | A scan that stops early has found all that a filter of the whole list finds. |
| TemporalCriteria.NextComplete | opencog/atomspace/TemporalTable.cc:884-966 | For the next-time criteria the scan finds the first match in the order. |
| TemporalCriteria.PreviousComplete | opencog/atomspace/TemporalTable.cc:144-191 | For the previous-time criteria the remembered match is the last in the order. |
| TemporalRelation.KeysSize | opencog/atomspace/TemporalTable.cc:112-138 | The list of all times is as long as the map from times has keys. |
| TemporalRelation.ListsOkAdd | opencog/atomspace/TemporalTable.cc:767-811 | Entering a pair into a handle's list and into the map keeps both in agreement. |
| TemporalRelation.ListsOkDrop | opencog/atomspace/TemporalTable.cc:382-480 | Taking a pair out of both keeps them in agreement, without empty sets or lists. |
| TemporalResults.ExactSelected | opencog/atomspace/TemporalTable.cc:193-380 | Going through the map from times finds what a filter for the exact time finds. |
| TemporalResults.OverlapsSelected | opencog/atomspace/TemporalTable.cc:193-380 | Cells from the limit on, found with the index, cannot overlap; filtering those before it finds all. |
| TemporalTables.TemporalTable.constructor | opencog/atomspace/TemporalTable.cc:40-50 | An empty table meets the invariant and denotes the empty relation. |
| TemporalTables.TemporalTable.GetTemporalIndexTablePos | opencog/atomspace/TemporalTable.cc:841-864 | The binary search over an index with duplicates finds the time, or the border between earlier and later slots. |
| TemporalTables.TemporalTable.GetPreviousTemporalEntry | opencog/atomspace/TemporalTable.cc:866-882 | A cell in the index that does not come after the time, or none if no slot comes before it. |
| TemporalTables.TemporalTable.UpdateIndexTable | opencog/atomspace/TemporalTable.cc:813-839 | After a rebuild the index is the list, whether or not the array had to grow. |
| TemporalTables.TemporalTable.AddToTimeline | opencog/atomspace/TemporalTable.cc:95-109 | Insertion that starts from the index is insertion into the whole list, for any stale index. |
| TemporalTables.TemporalTable.RemoveFromSortedEntries | opencog/atomspace/TemporalTable.cc:662-742 | Removal by way of the index takes exactly one cell out of the list; no slot refers to it afterwards and the index invariant holds. |
| TemporalTables.TemporalTable.AddToMaps | opencog/atomspace/TemporalTable.cc:767-811 | The lists by handle and the map from times gain exactly the pair; the tail pointer of the handle is right, whatever those of other handles point to. |
| TemporalTables.TemporalTable.AddToHandleList | opencog/atomspace/TemporalTable.cc:767-811 | Appending behind the tail pointer or inserting from the head gives the sorted list; the tail pointer of the handle is right, and no other changes. |
| TemporalTables.TemporalTable.Add | opencog/atomspace/TemporalTable.cc:82-142 | Adding a pair adds exactly this pair to the relation and makes exactly the tail pointer of its handle right, even if other handles have lost theirs; the list of times is that of a plain sorted insertion; the undefined time is refused and changes nothing. |
| TemporalTables.TemporalTable.RemoveScan | opencog/atomspace/TemporalTable.cc:382-480 | The removal loop, which stops early, removes exactly the times that the criterion selects, and takes the tail pointer away only with its cell. |
| TemporalTables.TemporalTable.RemoveForHandle | opencog/atomspace/TemporalTable.cc:382-480 | Removal for a handle takes exactly the selected pairs and reports whether there were any; a right tail pointer stays right unless the last pair of its handle goes, and is then left behind if and only if a previous-time criterion takes that pair. |
| TemporalTables.TemporalTable.DropFromLists | opencog/atomspace/TemporalTable.cc:513-527 | In whatever order the handles of a time lose it, their lists lose exactly its cells, and a tail pointer goes exactly if its cell was the head. |
| TemporalTables.TemporalTable.RemoveTime | opencog/atomspace/TemporalTable.cc:505-532 | A time leaves the map, the lists of all its handles and the list of all times together; all parts of the table agree again. |
| TemporalTables.TemporalTable.RemoveExact | opencog/atomspace/TemporalTable.cc:500-532 | Removal at an exact time takes exactly the pairs at that time, or reports that there are none. |
| TemporalTables.TemporalTable.RemoveOverlapping | opencog/atomspace/TemporalTable.cc:533-575 | The removal up to a limit found with the index takes exactly the overlapping pairs. |
| TemporalTables.TemporalTable.RemoveScanning | opencog/atomspace/TemporalTable.cc:489-657 | The scan that removes times while it walks the list takes exactly the pairs at the selected times, or at the remembered one, or all without a time. |
| TemporalTables.TemporalTable.Remove | opencog/atomspace/TemporalTable.cc:382-662 | For every criterion, with a handle or for all handles, exactly the selected pairs go and the result says whether there were any; a right tail pointer stays right exactly if the last pair of its handle stays, and is left behind exactly as the pairs tell. |
| TemporalRemovals.TailTime | opencog/atomspace/TemporalTable.cc:767-811 | A tail pointer that is right points to the last time of its handle, so that what becomes of it can be told from the pairs. |
| TemporalRemovals.KeptTail | opencog/atomspace/TemporalTable.cc:382-662 | A tail pointer that was right and is kept is right afterwards if its time is still related to the handle, and lost if not. |
| TemporalRemovals.TailsFollowed | opencog/atomspace/TemporalTable.cc:382-662 | If a removal keeps the tail pointers it should, which are right and which are lost afterwards can be told from the pairs before it. |
| TemporalRemovals.TailsScanned | opencog/atomspace/TemporalTable.cc:382-480 | After a scan that removes on its way exactly the tail pointer whose own cell went is gone; none is left behind by it. |
| TemporalRemovals.LoneTailMeans | opencog/atomspace/TemporalTable.cc:513-527 | When times go one after the other, a right tail cell is at the head of a list exactly if nothing will be left of the list. |
| TemporalRemovals.ReducedNext | opencog/atomspace/TemporalTable.cc:489-657 | One more time gone: exactly the right tail pointers of handles all of whose times are gone have gone with them. |
| TemporalRemovals.ReducedDone | opencog/atomspace/TemporalTable.cc:482-662 | After a removal for all handles a right tail pointer is left behind exactly if the last pair of its handle is gone and some other pair is not. |
| TemporalTables.TemporalTable.GetForHandle | opencog/atomspace/TemporalTable.cc:144-191 | A search for a handle lists exactly the pairs that a filter of its times gives. |
| TemporalTables.TemporalTable.GetExact | opencog/atomspace/TemporalTable.cc:193-380 | The exact search for all handles lists the pairs at the time. |
| TemporalTables.TemporalTable.GetOverlapping | opencog/atomspace/TemporalTable.cc:193-380 | The overlap search, which starts at a limit found with the index, lists exactly the overlapping pairs. |
| TemporalTables.TemporalTable.GetScanning | opencog/atomspace/TemporalTable.cc:193-380 | The scan of the list of all times lists exactly the selected pairs. |
| TemporalTables.TemporalTable.Get | opencog/atomspace/TemporalTable.cc:144-380 | For every criterion, with a handle or for all handles, the answer is the naive filter of the stored relation. |
| TemporalRuns.RemovalSays | opencog/atomspace/TemporalTable.cc:382-662 | What a removal does to the table and its tail pointers is what it does to the plain state, tail pointers that are left behind included. |
| TemporalRuns.Run | opencog/atomspace/TemporalTable.cc:82-662 | After any run of additions and removals that adds nothing for a handle whose own tail pointer was left behind, the table meets its invariant and denotes what a plain set of pairs would hold; exactly the tail pointers that the plain state tells are right, or lost. |
| TemporalRuns.PreviousStrands | opencog/atomspace/TemporalTable.cc:444-462 | A run that loses the tail pointer of a handle: its only time is removed as the time before another one. |
| TemporalRuns.StrandedByPrevious | opencog/atomspace/TemporalTable.cc:444-462 | An addition and a removal after which a tail pointer points to a removed cell, while the table is otherwise right. |
| TemporalRuns.ExactStrands | opencog/atomspace/TemporalTable.cc:513-527 | A run that loses the tail pointer of a handle: the later one of its two times is removed for all handles. |
| TemporalRuns.StrandedByExact | opencog/atomspace/TemporalTable.cc:513-527 | Two additions and a removal for all handles after which a tail pointer points to a removed cell, while the table is otherwise right. |
| Handles.SortedUnique | opencog/atomspace/Link.cc:268-303 | Two sorted lists with the same elements are equal, so that sorting gives a normal form. |
| Handles.SortHandlesOk | opencog/atomspace/Link.cc:278-303 | Sorting gives a sorted permutation. |
| Atoms.Atom.Node | opencog/atomspace/Atom.cc:56-90 | A new node has the default attention value, no incoming links and no flags. |
| Atoms.Atom.Link | opencog/atomspace/Link.cc:278-303 | A new link holds the handles it was given, sorted exactly if its type is unordered. |
| Atoms.Atom.AddIncomingHandle | opencog/atomspace/Atom.cc:226-234 | A new entry goes to the front of the incoming list. |
| Atoms.Atom.RemoveIncomingHandle | opencog/atomspace/Atom.cc:236-269 | The first entry for the handle goes; if there is none it fails with the error for an empty or for another list, and changes nothing. |
| Atoms.RemoveFirstCount | opencog/atomspace/Atom.cc:236-269 | Exactly one occurrence goes. |
| Atoms.NormalisedSame | opencog/atomspace/Link.cc:246-303 | Two lists of handles make the same unordered link exactly if they are permutations, and the same ordered link exactly if they are equal. |
| Atoms.MadeOf | opencog/atomspace/Link.cc:246-303 | A link in normal form is the link made of some handles exactly if it has the type and names them, in any order for an unordered type. |
| AtomTableValues.UnorderedUnique | opencog/atomspace/Link.cc:246-303 | Two links of an unordered type over the same atoms in the table are the same link. |
| AtomTableValues.LookupNeedsSorted | opencog/atomspace/AtomTable.h:336-341 | What a lookup by handles gives is the link over them exactly if there is one and, for an unordered type, the handles are sorted; otherwise it is undefined. |
| AtomTables.AtomTable.LinksDiffer | opencog/atomspace/Link.cc:246-303 | In a table that meets its invariant, links of an unordered type differ in the atoms they name. |
| AtomRuns.UnsortedLookup | opencog/atomspace/AtomTable.h:336-341 | A run after which a link is not found under the handles it was made with, but under the sorted ones. |
| AtomGraph.InIncoming | opencog/atomspace/AtomTable.cc:502-507 | A link is in an atom's incoming list exactly if it is live and names the atom. |
| AtomGraph.ReachesThrough | opencog/atomspace/AtomTable.cc:558-578 | Whatever reaches an atom reaches it through a link that names it. |
| AtomGraph.AboveGone | opencog/atomspace/AtomTable.cc:549-621 | Taking out only atoms that reach `h`, `h` among them, without leaving a dangling link, takes out exactly what reaches `h`. |
| AtomGraph.AboveAlone | opencog/atomspace/AtomTable.cc:579-594 | An atom that nothing names is reached only by itself, so that removal without recursion takes it alone. |
| AtomGraph.TargetsFirstJoin | opencog/atomspace/AtomTable.cc:575-575 | Putting later extracted atoms in front keeps every target before the links that name it. |
| AtomGraph.DetachNext | opencog/atomspace/AtomTable.cc:611-618 | Each target still holds the link that leaves, also if the link names it several times, and the multiplicities stay right. |
| AtomGraph.AttachNext | opencog/atomspace/AtomTable.cc:502-507 | Each target gains one entry per time the link names it. |
| AtomGraph.DeepOldStep | opencog/atomspace/ImportanceIndex.cc:168-204 | All that reaches an atom is old exactly if the atom is old and the same holds for all links that name it. |
| TLBs.TLB.AddAtom | opencog/atomspace/TLB.h:131-163 | A new atom gets the next handle, which is new, and is found under it. |
| TLBs.TLB.RemoveAtom | opencog/atomspace/AtomTable.cc:645-651 | Only an atom with an empty incoming list, whose targets are all still there, is deleted, and only its entry goes. |
| TLBs.TLB.RemoveIncoming | opencog/atomspace/Atom.cc:236-269 | One incoming list loses one entry; nothing else changes. |
| AtomIndexes.NodeIndex.InsertHandle | opencog/atomspace/NodeIndex.cc:40-46 | The index holds exactly the live nodes, each under its type and name. |
| AtomIndexes.NodeIndex.RemoveHandle | opencog/atomspace/NodeIndex.cc:48-54 | The same after an atom left. |
| AtomIndexes.NodeIndex.RemoveDecayed | opencog/atomspace/NodeIndex.cc:64-71 | The same after all decayed atoms left. |
| AtomIndexes.NodeIndex.GetHandle | opencog/atomspace/NodeIndex.cc:56-62 | The one live node of the type and name, or undefined; fails exactly for unknown types. |
| AtomIndexes.LinkIndex.InsertHandle | opencog/atomspace/LinkIndex.cc:41-51 | The index holds exactly the live links, each under its type and outgoing list. |
| AtomIndexes.LinkIndex.RemoveHandle | opencog/atomspace/LinkIndex.cc:53-63 | The same after an atom left. |
| AtomIndexes.LinkIndex.RemoveDecayed | opencog/atomspace/LinkIndex.cc:73-80 | The same after all decayed atoms left. |
| AtomIndexes.LinkIndex.GetHandle | opencog/atomspace/LinkIndex.cc:65-71 | The one live link of the type with the outgoing list, or undefined; fails exactly for unknown types. |
| AtomIndexes.BinsUnique | opencog/atomspace/FixedIntegerIndex.cc:26-70 | What bins are to hold determines them. |
| AtomIndexes.FilterBins | opencog/atomspace/FixedIntegerIndex.cc:54-70 | Filtering takes exactly the decayed atoms out of all bins. |
| AtomIndexes.TypeIndex.InsertHandle | opencog/atomspace/TypeIndex.cc:40-45 | Every live atom is in the bin of its type and in no other. |
| AtomIndexes.TypeIndex.RemoveHandle | opencog/atomspace/TypeIndex.cc:47-52 | The same after an atom left. |
| AtomIndexes.TargetTypeIndex.InsertHandle | opencog/atomspace/TargetTypeIndex.cc:34-54 | Every live link is in the bins of exactly the types of its targets, although the loop skips types it has met. |
| AtomIndexes.TargetTypeIndex.RemoveHandle | opencog/atomspace/TargetTypeIndex.cc:56-76 | The link leaves all bins it was in. |
| ImportanceIndexes.ImportanceIndex.InsertHandle | opencog/atomspace/ImportanceIndex.cc:74-80 | Every live atom is in the bin of its importance and in no other. |
| ImportanceIndexes.ImportanceIndex.RemoveHandle | opencog/atomspace/ImportanceIndex.cc:82-88 | The same after an atom left. |
| ImportanceIndexes.ImportanceIndex.UpdateImportance | opencog/atomspace/ImportanceIndex.cc:64-72 | The same after the importance of one atom changed. |
| ImportanceIndexes.ImportanceIndex.DecayBand | opencog/atomspace/ImportanceIndex.cc:124-145 | Exactly the atoms of the band lose one unit, down to the least value. |
| ImportanceIndexes.ImportanceIndex.ShiftBins | opencog/atomspace/ImportanceIndex.cc:119-145 | The block move lowers the importance of every live atom by one, saturating, and leaves every atom in the bin of its importance. |
| ImportanceIndexes.ImportanceIndex.DecayOneByOne | opencog/atomspace/ImportanceIndex.cc:92-118 | The loop that moves atoms one by one reaches the same importance values, and leaves every atom in the bin of its importance. |
| ImportanceIndexes.BothDecays | opencog/atomspace/ImportanceIndex.cc:92-145 | The block move and the loop end with the same bins and the same importance, from the same start. |
| ImportanceIndexes.ImportanceIndex.ExtractOld | opencog/atomspace/ImportanceIndex.cc:168-204 | An old atom ends up flagged exactly if all that reaches it is old; what the call emits is what it newly flagged, each once, with targets before links. |
| ImportanceIndexes.ImportanceIndex.Sweep | opencog/atomspace/ImportanceIndex.cc:147-166 | Visiting the bins in ascending order, and the handles of a bin in any order, the sweep flags and emits, each once, exactly the live atoms such that all live atoms that reach them, themselves included, have less short-term importance than the minimum and no long-term importance. |
| ImportanceIndexes.ImportanceIndex.DecayShortTermImportance | opencog/atomspace/ImportanceIndex.cc:92-166 | Every live atom loses one unit of short-term importance, down to the least value, and keeps the rest; then exactly those are emitted that all their reaching atoms, themselves included, leave below the minimum without long-term importance. |
| ImportanceIndexes.OnlyDecayLoses | opencog/atomspace/AttentionValue.cc:61-65 | The decay is the one change that takes one unit of short-term importance, down to the least value, and leaves the long-term and very-long-term importance alone. |
| ImportanceIndexes.OnlyDeepOldGo | opencog/atomspace/Atom.h:285-289 | Being old with all that reaches it is, field by field, less short-term importance than the minimum and no long-term importance all over. |
| ImportanceIndexes.LongTermStays | opencog/atomspace/ImportanceIndex.cc:147-207 | An atom with long-term importance stays, and so does all that it names, directly or not. |
| ImportanceIndexes.LaterFirst | opencog/atomspace/ImportanceIndex.cc:178-203 | Atoms emitted later go in front, and then every target stands before its links. |
| ImportanceIndexes.SweptOneMore | opencog/atomspace/ImportanceIndex.cc:191-203 | An old atom whose naming links are all out may go, and what stays is closed. |
| AtomTableValues.ExtractingNext | opencog/atomspace/AtomTable.cc:570-577 | An incoming link without a mark is live and above every live marked atom; one with a mark is gone. |
| AtomTableValues.ExtractingOne | opencog/atomspace/AtomTable.cc:570-577 | One more link and all that reaches it gone: still only atoms that reach `h`, each once, in order. |
| AtomTableValues.NowAlone | opencog/atomspace/AtomTable.cc:579-594 | After the recursion nothing names the atom any more, so that the branch for a remaining incoming set is not taken. |
| AtomTableValues.ExtractingEnds | opencog/atomspace/AtomTable.cc:549-621 | With `h` in front the list holds exactly what reaches `h`. |
| AtomTableValues.TargetsStillThere | opencog/atomspace/AtomTable.cc:633-652 | Deleting from the end of the list, the targets of the next atom are still there. |
| AtomTableValues.RemovalAfterExtraction | opencog/atomspace/AtomTable.cc:623-652 | What extraction gives is what deletion needs. |
| AtomTableValues.ClearingStep | opencog/atomspace/AtomTable.cc:677-699 | Clearing one decayed atom, whose targets may have been cleared before, keeps incoming lists, set of atoms and size right. |
| AtomTableValues.ValuesAdded | opencog/atomspace/AtomTable.cc:445-522 | A new atom keeps content unique, links pointing to live atoms, and incoming lists with multiplicity. |
| AtomTables.AtomTable.constructor | opencog/atomspace/AtomTable.cc:51-65 | An empty table meets the invariant. |
| AtomTables.AtomTable.LeaveIncoming | opencog/atomspace/AtomTable.cc:611-618 | The link leaves the incoming lists of all its targets, and no removal fails. |
| AtomTables.AtomTable.TakeOut | opencog/atomspace/AtomTable.cc:596-620 | An atom that nothing names leaves the set of atoms, all indexes and its targets; the invariant holds. |
| AtomTables.AtomTable.Extract | opencog/atomspace/AtomTable.cc:549-621 | Recursive extraction terminates, takes out exactly what reaches the atom, each once, and lists every target before its links; without recursion an atom that something names stays and nothing changes. |
| AtomTables.AtomTable.ExtractIncoming | opencog/atomspace/AtomTable.cc:558-578 | The loop over the incoming links, in any order, leaves the incoming list empty. |
| AtomTables.AtomTable.RemoveExtractedHandles | opencog/atomspace/AtomTable.cc:633-652 | Exactly the listed atoms are deleted, each while all atoms it names are still there. |
| AtomTables.AtomTable.Remove | opencog/atomspace/AtomTable.cc:623-631 | Exactly the atoms that reach `h` are gone from the table and the map of handles, and the result says whether `h` was there and is gone. |
| AtomTables.AtomTable.ClearDecayed | opencog/atomspace/AtomTable.cc:677-699 | All decayed atoms leave the set of atoms and the incoming lists of their targets, and can then be deleted in order. |
| AtomTables.AtomTable.ClearIndexesAndRemoveAtoms | opencog/atomspace/AtomTable.cc:666-703 | Exactly the decayed atoms are gone; the invariant holds. |
| AtomTables.AtomTable.DecayShortTermImportance | opencog/atomspace/AtomTable.cc:654-658 | After one round every atom has lost one unit of short-term importance and nothing else; gone are exactly the atoms all of whose reaching atoms, themselves included, are then below the minimum without long-term importance; an atom with long-term importance stays with all that it names. |
| AtomTables.AtomTable.GetNode | opencog/atomspace/AtomTable.h:329-334 | The unique live node with the content, or undefined exactly if there is none. |
| AtomTables.AtomTable.GetLink | opencog/atomspace/AtomTable.h:336-341 | The unique live link with the content, or undefined exactly if there is none; so a link over the handles is found exactly if there is one and, for an unordered type, the handles are sorted. |
| AtomTables.AtomTable.InsertIntoIndexes | opencog/atomspace/AtomTable.cc:494-499 | All indexes hold the new atom and what they held. |
| AtomTables.AtomTable.JoinIncoming | opencog/atomspace/AtomTable.cc:501-507 | The incoming lists are again the inverse of the outgoing lists, with multiplicity. |
| AtomTables.AtomTable.Add | opencog/atomspace/AtomTable.cc:445-522 | In all cases: an inserted atom gives its handle, an unknown type fails, existing content gives the existing handle and changes nothing; a dangling link fails, counts and enters the set of atoms and so breaks the invariant; a new atom gets a new handle and the invariant holds. |
| AtomTables.DanglingLink | opencog/atomspace/AtomTable.cc:467-489 | An empty table that counts one atom after a failed addition. |
| AtomTables.AtomTable.SetAttentionValue | opencog/atomspace/Atom.cc:150-173 | Exactly the attention value of the atom changes, and the importance index follows. |
| AtomRuns.PerformAdd | opencog/atomspace/AtomTable.cc:445-522 | Adding to the table is adding to the plain model, duplicates included; if a target is not in the table the addition fails and breaks the invariant. |
| AtomRuns.RemoveSays | opencog/atomspace/AtomTable.cc:549-631 | What extraction takes is what the plain model takes: all that reaches the atom, or without recursion the atom alone, if nothing names it. |
| AtomRuns.PerformRemove | opencog/atomspace/AtomTable.cc:623-631 | Removing from the table is removing from the plain model, recursive or not. |
| AtomRuns.PerformDecay | opencog/atomspace/AtomTable.cc:654-658 | A decay round on the table is one on the plain model. |
| AtomRuns.DecayInFields | opencog/atomspace/AtomTable.cc:654-658 | The same on the plain model, field by field. |
| AtomRuns.Run | opencog/atomspace/AtomTable.cc:445-703 | After any run of operations, for any fixed set of unordered types, the table meets its invariant and its atoms, attention values and next handle are those of the plain model. |
| ClassServers.SpreadCloses | opencog/atomspace/ClassServer.cc:57-106 | Relating the new parent and all above it to the type gives the closure if and only if all that is below the type was below the parent already. |
| ClassServers.SpreadAntisymmetric | opencog/atomspace/ClassServer.cc:98-106 | No cycle arises if the type is not properly above the parent. |
| ClassServers.ThreeTypes | opencog/atomspace/ClassServer.cc:57-72 | With one type below another and a third alone, the descendants of the first are not below the third. |
| ClassServers.RedeclarationCanFail | opencog/atomspace/ClassServer.cc:57-72 | Four declarations after which the recorded relation is no longer the closure. |
| ClassServers.ClassServer.SetParentRecursively | opencog/atomspace/ClassServer.cc:98-106 | The recursion terminates and relates exactly the parent and all above it to the type. |
| ClassServers.ClassServer.AddType | opencog/atomspace/ClassServer.cc:57-96 | A new type keeps the recorded relation a partial order and the closure of the declared edges; a declared one does so if and only if its descendants were below the parent. |
| ClassServers.ClassServer.IsAMeans | opencog/atomspace/ClassServer.cc:124-128 | Being of a type is a partial order, and holds exactly where every reflexive and transitive relation over the declared edges does. |
| HandleEntries.FilterSet | opencog/atomspace/HandleEntry.cc:500-541 | The two loops unlink in place exactly the cells that fail the test and keep the others in order. |
| HandleEntries.Concatenation | opencog/atomspace/HandleEntry.cc:303-319 | The second list hangs behind the first. |
| HandleIntersections.SkipKeeps | opencog/atomspace/HandleEntry.cc:252-264 | Moving a cursor past a handle that another array has passed loses no common handle. |
| HandleIntersections.MatchTakesOne | opencog/atomspace/HandleEntry.cc:265-272 | Moving all cursors past a common handle takes exactly one common occurrence. |
| HandleIntersections.NextMatch | opencog/atomspace/HandleEntry.cc:223-274 | The search terminates with the next common handle, or with none left. |
| HandleIntersections.CommonMeansInAll | opencog/atomspace/HandleEntry.cc:169-301 | A handle is in the intersection exactly if it is in every list. |
| HandleIntersections.CommonCountIsLeast | opencog/atomspace/HandleEntry.cc:265-301 | How often a handle is common is the least number of times that a list has it. |
| HandleIntersections.IntersectSorted | opencog/atomspace/HandleEntry.cc:276-301 | The common handles of sorted arrays, ascending, each as often as the least number of times it occurs in them. |
| HandleIntersections.Intersection | opencog/atomspace/HandleEntry.cc:169-221 | The same for unsorted lists; nothing for no lists or an empty one. |
| TypeIterators.TypeIndexCount | opencog/atomspace/TypeIndex.cc:54-93 | In a type index every live atom of a wanted type is met once and no other. |
| TypeIterators.BinCountSize | opencog/atomspace/TypeIndex.cc:54-93 | In any index a handle is met as often as there are wanted bins that hold it. |
| TypeIterators.TypeIterator.constructor | opencog/atomspace/TypeIndex.cc:72-93 | The start skips bins that do not match or are empty; what is still to visit is every handle of every matching bin. |
| TypeIterators.TypeIterator.Next | opencog/atomspace/TypeIndex.cc:141-163 | One step visits exactly the current handle, skips empty bins, ends at the end, and reads no bin past the last. |
| TypeIterators.GetHandleSet | opencog/atomspace/TypeIndex.cc:54-70 | The list holds every handle as often as it is in matching bins. |
| AtomQueries.Lookup | opencog/atomspace/AtomTable.cc:217-232 | The set of atoms finds exactly the live atom with the content. |
| AtomQueries.LookupIsScan | opencog/atomspace/AtomTable.cc:207-233 | The lookup gives what a scan gives if and only if there is no such link, or the handles are in normal form and the targets are of the types asked for. |
| AtomQueries.Candidates | opencog/atomspace/AtomTable.cc:249-275 | The set gathered for a position is exactly the links that hold the handle there, each as often as it names the handle, or those of the type asked for with an atom of the target type anywhere, each once for every such type among its targets; every link that answers the query is in it. |
| AtomQueries.Gather | opencog/atomspace/AtomTable.cc:242-288 | Gives up exactly if some constrained position has no candidate, and then nothing answers; otherwise there is a set for every constrained position and no other, and fewer sets than positions exactly if a position is unconstrained. |
| AtomQueries.FilterSets | opencog/atomspace/AtomTable.cc:278-299 | The filter by type keeps every answer, and reads a set that is not there exactly if there are fewer sets than positions and not every atom is of the type asked for. |
| AtomQueries.CommonAnswers | opencog/atomspace/AtomTable.cc:290-314 | What is in all sets and passes the tests of target types answers the query, and the other way round, if there is any set. |
| AtomQueries.AnswersInWords | opencog/atomspace/AtomTable.cc:201-315 | What answers a query, told by types and the hierarchy: the link type, the arity, and at every position the valid handle and the type asked for, with subtypes only where they are allowed. |
| AtomQueries.OpenIsScan | opencog/atomspace/AtomTable.cc:276-302 | That a query without constraints finds nothing makes a difference exactly if there is a link of its type and arity. |
| AtomQueries.ByIntersection | opencog/atomspace/AtomTable.cc:242-314 | The filtered intersection has the members of a scan of all atoms, or none if no position is constrained, ascending, and each as often as the constrained position that has gathered it least often; it fails exactly if the filter reads a set that is not there. |
| AtomQueries.ListedOnce | opencog/atomspace/AtomTable.cc:242-314 | A link is listed once if some position asks for an atom that it names once, as every atom that a link with distinct targets names, or for one type without its subtypes. |
| AtomQueries.BinsOfTargets | opencog/atomspace/AtomTable.cc:262-275 | The wanted bins of the target type index that hold a link are the types asked for among its targets. |
| AtomQueries.GetHandleSetByOutgoing | opencog/atomspace/AtomTable.cc:201-315 | All paths of the query: the one link over the handles, in any order for an unordered type; the atoms of the type without targets, each once; or the members of a scan, ascending and each as often as it was gathered at the least, except that a query without constraints finds nothing, and that the filter fails exactly if it has too few sets. |
| AtomQueries.GetHandleSetByType | opencog/atomspace/AtomTable.h:350-353 | All live atoms of a type, or with its subtypes, each once. |
| QueryRuns.AfterSmallRun | opencog/atomspace/AtomTable.cc:445-522 | A node, a link over it, and a link that names it twice are what a run of three additions leaves. |
| QueryRuns.LevelsOf | opencog/atomspace/ClassServer.cc:57-106 | The closure of a chain of three types relates each to itself and to all below it. |
| QueryRuns.AnyLinkIsOpen | opencog/atomspace/AtomTable.cc:276-302 | A query for links of any type with one target constrains nothing, and a link is of its shape. |
| QueryRuns.OpenFindsNothing | opencog/atomspace/AtomTable.cc:276-302 | A run, and a query that finds nothing although a link of its type and arity is there. |
| QueryRuns.TypedTargetLooksUp | opencog/atomspace/AtomTable.cc:207-233 | A query over a valid handle with a type that the atom is not of takes the lookup, which has a link to find that does not answer. |
| QueryRuns.LookupIgnoresTypes | opencog/atomspace/AtomTable.cc:207-233 | A run, and a query that finds exactly a link that does not answer it, as its target is not of the type asked for. |
| QueryRuns.OpenLinkHasTooFew | opencog/atomspace/AtomTable.cc:276-299 | A query for links of one type that constrains no position has too few sets. |
| QueryRuns.OpenReadsNoSet | opencog/atomspace/AtomTable.cc:276-299 | A run, and a query whose filter reads a set that is not there. |
| QueryRuns.SameTargetsAnswer | opencog/atomspace/AtomTable.cc:242-314 | A query for the same handle at both positions has one answer, which both positions gather twice. |
| QueryRuns.ListedTwice | opencog/atomspace/AtomTable.cc:242-314 | A run, and a query that lists its one answer twice. |
| AtomSpaces.SumsWithout | opencog/atomspace/AtomSpace.cc:520-538 | Taking away the atoms of a list lowers the sums by what the list adds up to. |
| AtomSpaces.AtomSpace.SetAV | opencog/atomspace/AtomSpace.cc:899-908 | The funds pay the difference: funds and importance of all atoms together stay the same. |
| AtomSpaces.AtomSpace.SetSTI | opencog/atomspace/AtomSpace.cc:910-914 | Only the short-term importance changes, and the totals stay the same. |
| AtomSpaces.AtomSpace.SetLTI | opencog/atomspace/AtomSpace.cc:916-920 | Only the long-term importance changes, and the totals stay the same. |
| AtomSpaces.AtomSpace.SetVLTI | opencog/atomspace/AtomSpace.cc:922-926 | Only the very-long-term importance changes, and the totals stay the same. |
| AtomSpaces.AtomSpace.AddNode | opencog/atomspace/AtomSpace.cc:566-598 | A node is there afterwards under the handle given, nothing else changes, and neither the totals nor, as a new atom has no importance, the funds; an unknown type is refused. |
| AtomSpaces.AtomSpace.AddLink | opencog/atomspace/AtomSpace.cc:600-633 | The link in the normal form of its type is there afterwards under the handle given, although the first lookup uses the handles as given; nothing else changes, and neither do the totals nor the funds. If a target is not in the table the addition fails, and the table is out of step. |
| AtomSpaces.AtomSpace.Refund | opencog/atomspace/AtomSpace.cc:522-533 | The funds gain what the extracted atoms hold. |
| AtomSpaces.AtomSpace.RemoveAtom | opencog/atomspace/AtomSpace.cc:520-538 | Exactly the atoms that reach `h` go, recursive or not, and the totals stay the same; the answer says whether `h` was there and is gone, which is if it was there and, without recursion, nothing named it. |
| AtomSpaces.AtomSpace.Clear | opencog/atomspace/AtomSpace.cc:1149-1183 | No atom is left, and the funds hold all importance. |
| AtomSpaces.Run | opencog/atomspace/AtomSpace.cc:520-926 | Over any run from an empty space the totals stay what the funds were. |
| CompositeTruthValues.CompositeTruthValue.Merge | opencog/atomspace/CompositeTruthValue.cc:323-374 | The two loops keep the more confident value of every version and of the primary value, and on a tie that of the value whose merge it is. |
| CompositeTruthValues.CompositeTruthValue.MergeSimple | opencog/atomspace/CompositeTruthValue.cc:375-386 | A value without versions can only replace the primary value, and does so exactly if it is more confident. |
| CompositeTruthValues.OnlyMergeKeeps | opencog/atomspace/CompositeTruthValue.cc:323-387 | The merge is the one value with the versions of both and the more confident value everywhere, ties going to the first. |
| CompositeTruthValues.MergeThenGet | opencog/atomspace/CompositeTruthValue.cc:323-447 | A version is read from a merge exactly if it is read from one of the two, and is then what the more confident one has. |
| CompositeTruthValues.MergedIsBest | opencog/atomspace/CompositeTruthValue.cc:323-387 | The versions are the union, each the most confident one of those merged. |
| CompositeTruthValues.MergedAssociative | opencog/atomspace/CompositeTruthValue.cc:323-387 | Merging is associative, for all maps of versions. |
| CompositeTruthValues.MergedIdempotent | opencog/atomspace/CompositeTruthValue.cc:323-387 | Merging a value with itself changes nothing. |
| CompositeTruthValues.MergedCommutes | opencog/atomspace/CompositeTruthValue.cc:323-387 | The order of merging matters if and only if two different values are equally confident. |
| CompositeTruthValues.CompositeTruthValue.SetVersionedTV | opencog/atomspace/CompositeTruthValue.cc:390-433 | Exactly the version changes, or the primary value for a null version handle; the null truth value stands for the default, with mean and count zero. |
| CompositeTruthValues.SetThenGet | opencog/atomspace/CompositeTruthValue.cc:390-447 | What was set is found again, except in a version whose handle has become invalid. |
| CompositeTruthValues.SetThenGetOther | opencog/atomspace/CompositeTruthValue.cc:390-447 | Setting a version changes what is read for another one exactly if it set the primary value to something else and the handle of the other is not valid. |

## Left out

- Times whose sum or difference wraps around are not modelled in the temporal table, whose promises fail for them (`TemporalCriteria.LostIfWrapped`); `Temporals` covers them.
- TemporalRuns.Run: nothing is said about an addition for a handle whose own tail pointer points to a removed cell, nor about what follows it; the code reads freed memory there.
- Pointer identity of shared times and the freeing of cells in the temporal table; a freed cell is one that no list and no slot refers to.
- AtomTables.AtomTable.Add: truth values are not modelled on atoms, so the merge of truth values on a duplicate is not; links come from the constructor, which sorts those of unordered types.
- AtomTables.AtomTable.SetAttentionValue: statistics on bin changes are not modelled.
- AtomTables.AtomTable.constructor: the number of atom types is fixed; resizing the indexes when types are declared later is not modelled.
- TLBs.TLB.AddAtom: the counter of handles does not wrap around; atoms come in without a handle of their own, as there is no backing store.
- Several atom tables over one map of handles.
- Deferred incoming links and their repair, which does not restore multiplicity for repeated targets.
- Node names are compared as whole strings; names with embedded zero characters, which the index cuts off, are not modelled.
- The predicate index and name-based queries.
- Atoms.Atom.Link: which types are unordered is fixed; handles that are appended to a link after it was made are not sorted by the code, and are not modelled.
- AtomQueries.GetHandleSetByOutgoing: what the code does after it read a set that is not there is undefined, and modelled as an error; every type is taken to be of the root type, as all types the system declares are; the lists it filters and intersects are sequences here; the filter and the concatenation in place are proved on linked cells by `HandleEntries.FilterSet` and `HandleEntries.Concatenation`.
- Filtering by removal flag: its second loop tests a cell and drops the next one, and no modelled operation uses it.
- The query by importance bounds.
- ImportanceIndexes.ImportanceIndex.ExtractOld: its recursion switch is always on, as in all calls.
- TypeIterators.TypeIterator.Next: the index and the hierarchy do not change during an iteration.
- ClassServers.ClassServer.AddType: nothing is said about declarations after one that lost the closure, or that close a cycle.
- AtomSpaces.AtomSpace.AddNode: the backing store, which could bring in an atom with importance of its own.
- AtomSpaces.Run: decay changes importance without touching the funds and is no operation of these runs; funds do not overflow.
- The confidence of a truth value is a given number; how it is computed from counts, and indefinite truth values, are not modelled. A composite value inside a composite value is not modelled.
- Inheritance between index classes is flattened: each index class holds its own bins.
- Hash containers are maps and sets, visited in any order; `qsort` is any sorting function.
- Signals, logging, mutexes, iterator registration, statistics, printing, configuration files (the threshold of the decay is a parameter) and the space server.
