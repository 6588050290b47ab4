# SyntaxNet and DRAGNN in Dafny

A model of the algorithmic core of SyntaxNet and DRAGNN, with proofs of what its parts promise.

- **Parser training.** Head graphs (`HeadGraph`, `RootYields`), the filters that reject cyclic documents and lift
  crossing arcs (`DocumentFilters`), the parser state (`ParserStates`), the arc-standard transition system with its
  gold oracle (`ArcStandard`), and the chain of all of them (`ParsingPipeline`). The artificial root is position -1;
  a head sequence is projective when no two arcs cross, arcs from the root included. Two central theorems are
  equivalences: following the oracle rebuilds a gold tree in 2n allowed actions if and only if the tree is
  acyclic and projective and has no label numbered below zero; and projectivizing makes no new root if and only if
  the tokens under each root token form an interval.
- **Beam search.** What searches and readers are told about a transition system (`TransitionSystems`), the training
  beam with its forced gold path (`TrainingBeam`, `BeamSelection`, `BeamStates`), the location of every path's scores in the
  concatenated score matrix (`PathScores`, `BatchLayouts`, `BeamBatch`), when a batch loses a gold path over whole
  runs (`GoldBatches`), the arc-standard system as an instance (`ArcStandardSystem`) and a sentence of it whose gold
  path is lost (`BeamWitnesses`); and the DRAGNN beam with its back-pointers and its fast path (`DragnnBeam`). Gold is
  *outscored* by a sequence of candidates if one of them leaves no room for it: gold itself, coming after a full beam
  of candidates at least as good, or a better candidate, coming after gold and all but one of a full beam of
  candidates at least as good. A beam that spares gold dies, and one that does not spare it loses it, exactly then.
- **Spanning trees.** Parent lists (`ParentForest`), union-find (`DisjointSets`) and the enumeration of all
  spanning trees (`SpanningTrees`).
- **Round trips.** The feature language: functions on text (`FmlSyntax`), its grammar over items
  (`FmlGrammar`) and over texts with blanks and comments (`FmlLayout`), both met exactly by the parser, the round trip
  (`FmlRoundTrip`), and the parser and printer as loops that are proved equal to those functions (`FmlParser`); the affix table
  (`AffixTables`); and word segmentation (`Segmentation`, `Segmenter`).
- **Reading in order.** The reader that decodes a batch of sentences and gives them back in reading order
  (`DecodedReader`), what holds of it over every run (`ReaderRuns`), when it gives back everything
  (`ReaderCompleteness`), and corpora on which it does not (`ReaderWitnesses`).

Code that changes state is a class or a method over arrays and is proved against functions or relations on
values; the properties are lemmas about those.

Where code and comments differ, the model follows the code:

- The projectivizer says that it lifts the shortest crossing arc (`syntaxnet/document_filters.cc:330`); it
  lifts the deepest one (lines 372-382).
- With discarding switched on, the projectivizer returns at the first crossing arc it meets; the model looks
  for the deepest one first and then discards. The answer and the document are the same.
- `GoldLabel` may be -1, because an unknown label falls back to the root label and the root label may be
  missing. A -1 label does not survive the action encoding (`ArcStandard.ArcsDecodeIffLabelled`), so the
  oracle theorem has non-negative labels as part of its equivalence.
- The comment on DRAGNN's `Init` says that it resets the beam (`dragnn/core/beam.h:69`). It does not: the history
  grows by a row while the number of steps stays. A beam wider than one passes the check at lines 181-183
  afterwards exactly if it had as many rows as steps before, which a beam in use never has (`Beam.Init`).
- At width one, the general advance keeps the last of several best actions and the fast path takes the first;
  they agree on the score always and on the action exactly when the best action is unique
  (`DragnnBeam.FastAgreesWithGeneral`).
- The FML printer drops feature names and explicit zero arguments; `FmlRoundTrip.RoundTripIffPrintable` states
  exactly which forests survive.
- With several roots in the input, projectivization may add others (`DocumentFilters.SeveralRootsMayGrow`).
  `DocumentFilters.RootsStayIffIntervals` states exactly when it does not; a single root always stays single.
- The gold reader performs whatever the oracle says. On exactly the trees that are cyclic or crossing, or lack a label,
  the oracle comes to a shift without input left, which fails a check, or to the left arc of a missing label, which
  does nothing for ever (`ArcStandard.OracleStopsBy`); `ParsingPipeline.ReplayGold` stops there.
- The gold path is said never to fall out of the training beam on account of its score
  (`syntaxnet/beam_reader_ops.cc:179-182`). A beam that continues until all paths are final does not spare it
  (lines 306-315): it loses gold exactly if gold is outscored (`TrainingBeam.SearchIsSelective`), which among
  candidates that tie with gold depends on their order (`BeamWitnesses.TiesDecideByOrder`), and the check on gold
  slots in the outputs then fails (`GoldBatches.TrainBatch`).
- The decoded reader treats a sentence that is finished from the start in two ways. Loaded by the rewinding loop it
  stays in its slot, and the next call performs action 0 on it, which fails a check
  (`ReaderWitnesses.FirstSentencesMustBeginUnfinished`). Loaded by the advancing loop it is passed over; its id is
  never filed, and nothing is emitted past it (`ReaderCompleteness.NothingPassesFinishedStart`). So an epoch is
  complete exactly if there is no such sentence (`ReaderCompleteness.CompleteIffAllBeginUnfinished`). Repeated ids
  overwrite each other's parses (`ReaderWitnesses.RepeatedIdLosesParse`).

## Model

| member | source | states |
|---|---|---|
| HeadGraph.RootedIffAcyclic | syntaxnet/document_filters.cc:253-276 | Every token reaches the artificial root exactly when no token is its own ancestor |
| HeadGraph.CoveredIsDescendant | syntaxnet/document_filters.cc:324-326 | In an acyclic projective tree every token strictly under an arc descends from the arc's head |
| DocumentFilters.ShouldKeep | syntaxnet/document_filters.cc:253-276 | The marking scan keeps a document exactly when its head graph is acyclic or malformed ones are kept |
| DocumentFilters.CrossingIffNotProjective | syntaxnet/document_filters.cc:357-368 | A tree is projective exactly when no arc that does not hang off the root crosses another arc, so skipping root arcs loses nothing |
| DocumentFilters.ArcBounds | syntaxnet/document_filters.cc:332-351 | The two boundary lists are the tightest bounds that the arcs over each token give |
| DocumentFilters.ExceedsIffCrossing | syntaxnet/document_filters.cc:362-368 | An arc exceeds its bounds exactly when it crosses some arc |
| DocumentFilters.CountDepth | syntaxnet/document_filters.cc:372-378 | The climbing loop ends and counts the least number of steps to the root |
| DocumentFilters.FindDeepestCrossing | syntaxnet/document_filters.cc:353-387 | Returns -1 exactly on projective trees, and otherwise the first of the deepest crossing arcs |
| DocumentFilters.LiftKeepsRooted | syntaxnet/document_filters.cc:389-391 | Lifting an arc to its head's head keeps the graph acyclic |
| DocumentFilters.LiftRaisesByOne | syntaxnet/document_filters.cc:389-391 | A lift makes the lifted token and everything under it exactly one level less deep and leaves all other depths alone |
| DocumentFilters.RaisedOnceIsLift | syntaxnet/document_filters.cc:389-391 | Only one head list has a token moved to an ancestor so that it and all under it are one level less deep, with no other head changed |
| DocumentFilters.LiftLowersDepthSum | syntaxnet/document_filters.cc:331-392 | Every lift lowers the sum of the token depths, which is why the loop ends |
| DocumentFilters.LiftStaysLifted | syntaxnet/document_filters.cc:389-391 | After a lift every head is still -1 or an ancestor in the original document |
| DocumentFilters.ProjectivizedStep | syntaxnet/document_filters.cc:331-392 | There is one arc to lift next, so that the final document is determined by the given one |
| DocumentFilters.ProjectivizedIffRaised | syntaxnet/document_filters.cc:331-392 | The final document is the one projective document that is reached from the given one by raising, time after time, the first of the deepest crossing tokens by one level |
| RootYields.ProjectiveYieldsAreIntervals | syntaxnet/document_filters.cc:386-387 | In an acyclic projective tree the tokens under each root token form an interval |
| DocumentFilters.DeepestIsNotBelowARoot | syntaxnet/document_filters.cc:357-391 | If the tokens under each root token form an interval, the deepest crossing arc does not hang directly from a root token |
| DocumentFilters.LiftKeepsRootTokens | syntaxnet/document_filters.cc:389-391 | A lift that makes no new root changes no token's root token |
| DocumentFilters.ProjectivizedIsProjective | syntaxnet/document_filters.cc:331-392 | Lifting ends in an acyclic projective tree that still has all the given roots |
| DocumentFilters.RootsStayIffIntervals | syntaxnet/document_filters.cc:331-392 | Lifting makes no new root if and only if in the given document the tokens under each root token form an interval |
| DocumentFilters.SingleRootStays | syntaxnet/document_filters.cc:331-392 | A document with a single root ends with the same single root |
| DocumentFilters.Process | syntaxnet/document_filters.cc:321-393 | The rewritten document is reached from the given one through a sequence of documents, each with the first of the deepest crossing tokens of the one before raised by exactly one level to an ancestor; it is acyclic and projective, its heads are original ancestors or -1, its roots are the original ones if and only if the tokens under each root token form an interval, a single root stays the single root, projective input is unchanged, and discarding refuses exactly the non-projective documents, unchanged |
| DocumentFilters.SeveralRootsMayGrow | syntaxnet/document_filters.cc:331-392 | On a document with two roots whose yields interleave, the loop ends with two more roots |
| ParserStates.ParserState.constructor | syntaxnet/parser_state.cc:26-47 | Empty stack, first token next, every head -1 with the root label |
| ParserStates.ParserState.Advance | syntaxnet/parser_state.cc:88-91 | Moves to the next token and changes nothing else |
| ParserStates.ParserState.Push | syntaxnet/parser_state.cc:100-103 | Adds an element on top of the stack and changes nothing else |
| ParserStates.ParserState.Pop | syntaxnet/parser_state.cc:105-110 | Removes and returns the top of the stack and changes nothing else |
| ParserStates.ParserState.AddArc | syntaxnet/parser_state.cc:209-214 | Sets head and label of one token and changes nothing else |
| ArcStandard.ArcsDecodeIffLabelled | syntaxnet/arc_standard_transitions.cc:103-125 | An arc action decodes to its own type and label exactly when the label is not negative; -1 decodes to no action or to a shift |
| ArcStandard.StepKeepsSound | syntaxnet/arc_standard_transitions.cc:236-275 | Every allowed action keeps the invariant (stack increasing from -1, closed tokens settled and neither covering open ones nor crossing, heads acyclic) and uses up one of the remaining actions |
| ArcStandard.FinalIffNothingRemains | syntaxnet/arc_standard_transitions.cc:201-289 | In a reachable state, final means that no action remains, which is also when no action is allowed: no run gets stuck |
| ArcStandard.EveryRunBuildsAProjectiveTree | syntaxnet/arc_standard_transitions.cc:201-289 | Every run of allowed actions takes at most 2n actions, is final after exactly 2n, never stuck before that, and then has built an acyclic projective tree |
| ArcStandard.ScanAgrees | syntaxnet/arc_standard_transitions.cc:180-198 | On a projective tree the scan that jumps ahead agrees with looking at every token |
| ArcStandard.ScanFollowsPath | syntaxnet/arc_standard_transitions.cc:180-198 | On any tree the scan is done exactly if none of the tokens it comes to, going to the next one or to a head further on, has that head |
| ArcStandard.HeadNotBelowNeighbour | syntaxnet/arc_standard_transitions.cc:144-175 | On the oracle's way, the gold head of a stack element never lies below its left neighbour unless the neighbour is its dependent |
| ArcStandard.RightArcIsComplete | syntaxnet/arc_standard_transitions.cc:155-162 | When the oracle makes a right arc the dependent has no gold dependent left |
| ArcStandard.LeftArcIsComplete | syntaxnet/arc_standard_transitions.cc:164-170 | When the oracle makes a left arc the dependent has no gold dependent left |
| ArcStandard.OracleStaysOnTrack | syntaxnet/arc_standard_transitions.cc:144-175 | On a labelled projective tree the gold action is allowed and keeps all finished arcs equal to gold, with nothing passed over |
| ArcStandard.OracleIsEager | syntaxnet/arc_standard_transitions.cc:144-175 | On its way the oracle makes the gold arc between the two top elements as soon as the dependent has no open gold dependent, with the gold label, and shifts otherwise |
| ArcStandard.OracleRebuildsIffProjective | syntaxnet/arc_standard_transitions.cc:144-175 | The oracle's 2n actions are all allowed if and only if the gold tree is acyclic, projective and has no negative label; and then they end in a final state with all gold heads and labels |
| ParsingPipeline.PerformShift | syntaxnet/arc_standard_transitions.cc:253-257 | Breaks no check of the parser state and makes the state that the shift step specifies |
| ParsingPipeline.PerformLeftArc | syntaxnet/arc_standard_transitions.cc:261-266 | Attaches the second element to the top one and removes it |
| ParsingPipeline.PerformRightArc | syntaxnet/arc_standard_transitions.cc:269-275 | Attaches the top element to the second one and removes it |
| ParsingPipeline.PerformAction | syntaxnet/arc_standard_transitions.cc:236-249 | Every allowed action makes the specified step on the object |
| ParsingPipeline.DoneChildrenRightOf | syntaxnet/arc_standard_transitions.cc:180-198 | The loop returns true, on a projective tree with the head before the next token, exactly when no token from the next one on has that head |
| ParsingPipeline.GetNextGoldAction | syntaxnet/arc_standard_transitions.cc:144-175 | The oracle on the object returns the action the theorems are about: the right arc if gold attaches the top to the second element and the scan is done, else the left arc if gold attaches the second to the top one, else a shift, with the encoding of the gold label |
| ArcStandard.OracleRunCopies | syntaxnet/arc_standard_transitions.cc:144-175 | On any gold tree, however far the oracle gets, every arc it has made is a gold arc with its gold label |
| ArcStandard.OracleStopsBy | syntaxnet/arc_standard_transitions.cc:144-175 | A gold action that is not allowed is a shift without input left, or the left arc of a missing label |
| ArcStandard.ReplayTells | syntaxnet/arc_standard_transitions.cc:144-175 | A replay that cannot go on is final if and only if the gold tree is acyclic, projective and labelled, and then has rebuilt it |
| ParsingPipeline.PerformGold | syntaxnet/reader_ops.cc:273-280 | Performs the next gold action on the object if it is allowed, and otherwise changes nothing |
| ParsingPipeline.ReplayGold | syntaxnet/reader_ops.cc:273-280 | For any gold tree: performing gold actions ends, in a final state if and only if the tree is acyclic, projective and has no negative label, and then with the gold heads and labels |
| ParsingPipeline.TrainOnDocument | syntaxnet/parser_trainer.py:276-291 | The trainer's chain: refuses exactly cyclic documents (and non-projective ones when discarding); otherwise the replay reaches a final state if and only if no label is missing, and then has the heads and labels of the projectivized document; that document is reached by raising crossing tokens level by level, is the input itself if that was projective, has only lifted heads and the same roots exactly under the interval condition |
| ParentForest.RootStep | dragnn/mst/disjoint_set_forest.h:106-136 | An element and its parent have the same root |
| DisjointSets.RootMapIsRoot | dragnn/mst/disjoint_set_forest.h:106-136 | The tracked root of every element is what climbing its parents reaches, and climbing ends |
| DisjointSets.CompressionKeepsRoots | dragnn/mst/disjoint_set_forest.h:126-133 | Pointing an element directly at its root changes no element's root |
| DisjointSets.JoinRepresents | dragnn/mst/disjoint_set_forest.h:145-172 | If equal roots are the least equivalence of the unions so far, joining two roots gives that of one more union |
| DisjointSets.LinkKeepsRanked | dragnn/mst/disjoint_set_forest.h:154-167 | Linking by rank keeps ranks increasing towards the root and 2^rank members in every set |
| DisjointSets.RanksAreLogarithmic | dragnn/mst/disjoint_set_forest.h:154-167 | No rank exceeds the logarithm of the forest's size |
| DisjointSets.DisjointSetForest.Init | dragnn/mst/disjoint_set_forest.h:93-103 | Every element is its own root and no union has been made |
| DisjointSets.DisjointSetForest.FindRoot | dragnn/mst/disjoint_set_forest.h:106-136 | Returns the root, points exactly the elements on the way to it at the root, leaves all others alone, and changes no root and no rank |
| DisjointSets.DisjointSetForest.SameSet | dragnn/mst/disjoint_set_forest.h:139-142 | True exactly when the elements are related by the equivalence closure of the unions made |
| DisjointSets.DisjointSetForest.UnionOfRoots | dragnn/mst/disjoint_set_forest.h:145-172 | Joins the two sets and changes one parent only: without ranks the first root hangs under the second; with ranks the lower root hangs under the higher one, and on a tie the first under the second, whose rank alone grows by one |
| DisjointSets.DisjointSetForest.Union | dragnn/mst/disjoint_set_forest.h:175-178 | The same for the roots of two elements, keeping the least-equivalence and rank invariants |
| SpanningTrees.CycleHasNoRoot | dragnn/mst/spanning_tree_iterator.cc:23-56 | A list with a cycle other than a self-loop is no forest |
| SpanningTrees.OneRootIffSingleRooted | dragnn/mst/spanning_tree_iterator.cc:76-94 | A forest has one root exactly when all nodes hang under one node |
| SpanningTrees.NumRoots | dragnn/mst/spanning_tree_iterator.cc:58-64 | Counts the self-loops |
| SpanningTrees.CarryAddsOne | dragnn/mst/spanning_tree_iterator.cc:66-74 | Incrementing with carry adds one to the number that the list spells in base n |
| SpanningTrees.ValueInjective | dragnn/mst/spanning_tree_iterator.cc:66-74 | Different lists spell different numbers |
| SpanningTrees.NextSourceList | dragnn/mst/spanning_tree_iterator.cc:66-74 | Moves the list in place to the next number: the digits at their maximum in front become zero and the next one grows by one; fails only if all digits are at their maximum |
| SpanningTrees.SpanningTreeIterator.HasCycle | dragnn/mst/spanning_tree_iterator.cc:23-56 | True exactly when a cycle longer than a self-loop exists, which is when some node reaches no root |
| SpanningTrees.SpanningTreeIterator.NextTree | dragnn/mst/spanning_tree_iterator.cc:76-94 | Moves to a spanning tree (or forest) with none in between, and fails only if none is left |
| SpanningTrees.SpanningTreeIterator.ForEachTree | dragnn/mst/spanning_tree_iterator.h:45-51 | Visits every spanning tree (or forest) on n > 0 nodes and nothing else, each once, in the order of the last parent in which two of them differ |
| DragnnBeam.OfferAllKeepsBest | dragnn/core/beam.h:333-377 | Offering distinct candidates one by one keeps min(k, all) of them in descending order, none dropped scoring above one kept |
| DragnnBeam.OfferAllKeepsRanked | dragnn/core/beam.h:333-377 | Candidates of the same score stay in the order in which they were offered |
| DragnnBeam.ExaminedOnce | dragnn/core/beam.h:333-377 | The nested loops examine every allowed pair of slot and action exactly once |
| DragnnBeam.KeptAreBest | dragnn/core/beam.h:333-428 | The general advance keeps the best allowed candidates |
| DragnnBeam.FastAgreesWithGeneral | dragnn/core/beam.h:285-329 | At width one both paths reach the same score, and pick the same action exactly when the best action is unique |
| DragnnBeam.KeptIsOffered | dragnn/core/beam.h:333-377 | Examining candidate by candidate keeps what offering them all in one sequence keeps |
| DragnnBeam.Beam.Init | dragnn/core/beam.h:71-88 | For any beam: slots are numbered, gold marks dropped when untracked, one row of back-pointers added and the number of steps kept; the steps fit the history afterwards if and only if there was one row less before, so a new beam becomes valid and a beam in use that is wider than one does not |
| DragnnBeam.Beam.SelectCandidates | dragnn/core/beam.h:333-377 | The loops over slots and actions compute the specified selection |
| DragnnBeam.Beam.BeamAdvanceFromPrediction | dragnn/core/beam.h:333-428 | Every new slot holds what one allowed action makes of a source slot: the source's score plus the entry of the action in its row of the matrix, the state after the action, its own index, the parent index of the source, and gold exactly if tracked, the source was gold and the action is an oracle action; slots are in descending order of score, in examination order on ties; no possible move left out scores above the last slot, and none is left out of a beam that is not full; the new row of back-pointers names the sources, and the past is only extended |
| DragnnBeam.Beam.FastAdvanceFromPrediction | dragnn/core/beam.h:285-329 | Succeeds exactly when an action is allowed; then the single slot holds what the first of the best allowed actions makes of it, with score, state, indices and gold mark stated as for the general advance; otherwise nothing changes |
| DragnnBeam.Beam.AdvanceFromPrediction | dragnn/core/beam.h:91-115 | Chooses the advance by width with all that is stated for it, counts the step on success and only extends the past |
| DragnnBeam.Beam.AdvanceFromOracle | dragnn/core/beam.h:118-137 | Every non-final slot takes its first oracle action in place, with score zero, its own index, and parent index and gold mark as before; final slots are unchanged, and all point back at themselves |
| DragnnBeam.Beam.FindPreviousIndex | dragnn/core/beam.h:159-213 | For 1 <= step <= number of steps, the slot held one step earlier by the ancestor of the state now in that slot; at step 0 the slot of the component before, which is 0 at width one; -1 outside the ranges |
| TrainingBeam.AgendaHoldsCandidates | syntaxnet/beam_reader_ops.cc:306-352 | The agenda is ascending, within its size, and holds only candidates that were offered |
| BeamSelection.SearchSelects | syntaxnet/beam_reader_ops.cc:306-352 | For both kinds of beams, over any sequence of candidates with at most one gold: the beam holds as many candidates as fit, and, counted as multisets, no candidate off the gold path that is left out scores above one off the gold path that is kept, nor, if gold is not spared, above gold if that is kept |
| BeamSelection.CandidatesListed | syntaxnet/beam_reader_ops.cc:184-231 | The candidates of a step come from exactly the allowed actions of the unfinished slots and from the finished slots as they are, each once, in the order of slots and actions, with score, state, gold mark and histories stated |
| BeamSelection.AdvanceSteps | syntaxnet/beam_reader_ops.cc:184-231 | A step of a live beam moves gold by its allowed gold action, lists these candidates, keeps that selection of them and knows whether all that are kept are final |
| TrainingBeam.SearchIsFair | syntaxnet/beam_reader_ops.cc:306-352 | For beams that spare gold, over any sequence of candidates with at most one gold: gold is never lost, enough strictly better rivals force dying, and dying needs enough rivals at least as good |
| TrainingBeam.SearchIsSelective | syntaxnet/beam_reader_ops.cc:306-352 | For beams that continue until all paths are final, over any such sequence: the agenda loses gold if and only if gold is outscored, and holds as many candidates above gold, and at or above it, as there are or as fit beside it |
| TrainingBeam.DyingIffOutscored | syntaxnet/beam_reader_ops.cc:306-352 | For beams that spare gold, over any such sequence: the beam is dying if and only if gold is outscored, and until then both kinds of beams hold the same |
| TrainingBeam.OutscoredBounds | syntaxnet/beam_reader_ops.cc:306-352 | Gold is outscored whenever a full beam of candidates is above it, and only if a full beam is at or above it |
| TrainingBeam.CandidatesGoldCount | syntaxnet/beam_reader_ops.cc:192-228 | A step offers exactly one gold candidate, in the next gold state, if the gold action can be taken, and none otherwise |
| TrainingBeam.AdvanceTracksGold | syntaxnet/beam_reader_ops.cc:184-231 | After an advance of any live beam at most the maximum number of slots is left, at most one is gold, in the gold state, and there is one if and only if there was one before, the gold action can be taken and, if the beam continues until all paths are final, gold is not outscored |
| TrainingBeam.DyingMeansOutscored | syntaxnet/beam_reader_ops.cc:184-231 | A live beam is dying after an advance if and only if it spares gold, gold is outscored, and not all paths are final; dead means all final |
| BeamWitnesses.TiesDecideByOrder | syntaxnet/beam_reader_ops.cc:306-352 | An arc-standard sentence of one token, width one, all scores equal, continuing until all paths are final: after two steps the beam has its gold path if the gold label is the first of two, and has lost it if it is the second |
| PathScores.AdvanceKeepsLocated | syntaxnet/beam_reader_ops.cc:184-231 | Every path in the beam, final ones included, still finds each of its scores at its recorded slot and action in the concatenated matrix |
| PathScores.FlattenAt | syntaxnet/beam_reader_ops.cc:775-782 | Row r and action a of the matrix are at numActions * r + a of the flat one |
| PathScores.StepIndexFindsScore | syntaxnet/beam_reader_ops.cc:775-782 | The emitted index of every step of every path finds that step's score |
| BeamStates.BeamState.Reset | syntaxnet/beam_reader_ops.cc:147-161 | Goes on with the sentence unless it is finished or a new one is wanted, and starts with the gold path alone |
| BeamStates.BeamState.AdvanceGold | syntaxnet/beam_reader_ops.cc:291-301 | Takes the next gold action if it is allowed, keeps gold in place if it is not or gold is final, and records the action, or -1 for final gold |
| BeamStates.BeamState.MaybeInsertItem | syntaxnet/beam_reader_ops.cc:324-352 | Inserts what is gold, finds room or beats the lowest score, behind all items whose key is not greater and before the others; otherwise changes nothing |
| BeamStates.BeamState.PruneBeam | syntaxnet/beam_reader_ops.cc:306-316 | Of too many slots exactly the lowest goes; but if that is gold and gold is spared, the second lowest goes and the beam is dying; otherwise nothing changes |
| BeamStates.BeamState.UpdateAllFinal | syntaxnet/beam_reader_ops.cc:163-174 | Dead once every path is final |
| BeamStates.BeamState.Advance | syntaxnet/beam_reader_ops.cc:184-231 | The loops compute the advance that the lemmas are about, from every status: a step as stated for `AdvanceSteps` from a live beam, and only the status of others changes, to dead |
| BatchLayouts.StepKeepsConsistent | syntaxnet/beam_reader_ops.cc:429-457 | Advancing all beams and appending scores and offsets keeps every path of every beam located in the concatenated matrix |
| BeamBatch.BatchState.ResetOffsets | syntaxnet/beam_reader_ops.cc:429-433 | Starts an empty matrix with consistent offsets |
| BeamBatch.BatchState.UpdateOffsets | syntaxnet/beam_reader_ops.cc:445-457 | Offsets are the running sums of the beam sizes, dead beams taking no rows |
| BeamBatch.BatchState.AdvanceBeam | syntaxnet/beam_reader_ops.cc:435-443 | A beam advances by exactly its own rows |
| BeamBatch.BatchState.Advance | syntaxnet/beam_reader_ops.cc:657-672 | One evaluation keeps the whole batch consistent |
| BatchLayouts.EmitBatch | syntaxnet/beam_reader_ops.cc:747-789 | The loops over beams, slots and steps emit, for every path in order, its beam and slot, its score and indices that sum up to it, and for every beam with a sentence its gold slot |
| BeamBatch.BatchState.Output | syntaxnet/beam_reader_ops.cc:747-789 | Summing the flat matrix at the indices emitted for a path gives exactly that path's score, for every path of every beam after any number of steps; beam and slot ids name the paths in order; every beam with a sentence has its gold slot found; every path of every beam that has a sentence is named once, beam by beam and slot by slot, with its score |
| GoldBatches.BatchKeepsGold | syntaxnet/beam_reader_ops.cc:657-672 | For both kinds of beams: after an evaluation every beam that has a sentence has its gold slot if and only if it had it before and, in every live beam, the gold action can be taken and gold is spared or not outscored |
| GoldBatches.TrainBatch | syntaxnet/beam_reader_ops.cc:607-789 | Reset and any number of evaluations: the closing check on gold slots holds if and only if no evaluation cost a beam its gold path, which none does for beams that spare gold and gold paths that can always go on; and then the outputs are those stated for `Output` |
| ArcStandardSystem.AllowedPassesChecks | syntaxnet/arc_standard_transitions.cc:201-275 | An allowed arc-standard action passes all checks of the parser state |
| ArcStandardSystem.StartIsFinalIffEmpty | syntaxnet/arc_standard_transitions.cc:285-289 | Exactly the empty sentences are finished from the start |
| ArcStandardSystem.ArcStandardHalts | syntaxnet/parser_state.cc:88-110 | Performing any action on a final state fails a check |
| ArcStandardSystem.StartIsAccepted | syntaxnet/arc_standard_transitions.cc:48 | Every acyclic, projective and labelled document starts on the oracle's way |
| ArcStandardSystem.ArcStandardGoesOn | syntaxnet/arc_standard_transitions.cc:144-175 | On accepted documents the gold action is always among the allowed ones, so arc-standard training batches that spare gold never lose it |
| FmlGrammar.ParsesIffDerives | syntaxnet/fml_parser.cc:119-222 | The parser accepts exactly the sequences of items of syntax trees (entries in parentheses, a name after a colon as a name or a string, a dotted sub-feature or a block of them, at any nesting) and gives their meaning: type, last argument, parameters in order, name and sub-features |
| FmlLayout.WrittenIsRead | syntaxnet/fml_parser.cc:56-117 | Items written with any white space and comments between them, apart where they would grow together, are read as these items |
| FmlLayout.ReadIsWritten | syntaxnet/fml_parser.cc:56-117 | Every text without an unterminated string is written like that |
| FmlLayout.ParsesIffWritten | syntaxnet/fml_parser.cc:56-222 | A text is parsed as given features if and only if it is written with items of trees that stand for them, feature names included |
| FmlRoundTrip.ParsedIffLegal | syntaxnet/fml_parser.cc:119-222 | The features the parser can give are exactly the legal ones, with any names and zero arguments, at any nesting |
| FmlRoundTrip.ParsePrinted | syntaxnet/fml_parser.cc:56-278 | Parsing the printed form of any legal forest gives the forest without names and zero arguments |
| FmlRoundTrip.PrintableIffNormal | syntaxnet/fml_parser.cc:224-259 | What the printer drops leaves a feature unchanged exactly when it has no name and no zero argument anywhere |
| FmlRoundTrip.ParsedIsLegal | syntaxnet/fml_parser.cc:119-222 | Everything the parser accepts has lexically valid types and parameter names, quote-free feature names and values, and 32-bit arguments |
| FmlRoundTrip.RoundTripIffPrintable | syntaxnet/fml_parser.cc:56-278 | Printing and parsing gives back the same forest if and only if every feature in it is legal, unnamed and has no explicit zero argument |
| FmlRoundTrip.IntRoundTrip | syntaxnet/fml_parser.cc:197-203 | Printed 32-bit numbers are read back |
| FmlRoundTrip.PrintedFeature | syntaxnet/fml_parser.cc:224-259 | The exact text of one feature with argument, parameters, a dotted sub-feature and a block of two |
| FmlRoundTrip.PrintedForest | syntaxnet/fml_parser.cc:261-278 | Features are printed on lines of their own |
| FmlParser.FMLParser.SkipBlanks | syntaxnet/fml_parser.cc:56-68 | Skips exactly white space and comments |
| FmlParser.FMLParser.NextItem | syntaxnet/fml_parser.cc:56-117 | Moves to the next item of the text and fails exactly on an unterminated string |
| FmlParser.FMLParser.ParseParameterInto | syntaxnet/fml_parser.cc:197-222 | Reads one argument or named parameter as the grammar has it, with the same failures |
| FmlParser.FMLParser.ParseFeatureOf | syntaxnet/fml_parser.cc:141-195 | Reads arguments, name and sub-features as the grammar has it, with the same failures |
| FmlParser.FMLParser.ParseModel | syntaxnet/fml_parser.cc:119-139 | The recursive parser over a moving position computes the grammar's parse of the whole text, errors included |
| FmlParser.ToFMLFunction | syntaxnet/fml_parser.cc:224-244 | Appends type, argument and parameters in printed form |
| FmlParser.ToFML | syntaxnet/fml_parser.cc:246-259 | Appends a feature with its dotted or braced sub-features |
| FmlParser.PrintForest | syntaxnet/fml_parser.cc:261-278 | Prints the forest whose round trip is characterised |
| AffixTables.LinkKeepsChained | syntaxnet/affix.cc:215-230 | Putting an affix in front of its bucket keeps every chain complete, latest first |
| AffixTables.ShorterAreHeld | syntaxnet/affix.cc:131-187 | Holding an affix means holding all shorter ones, so stopping at the first hit loses nothing |
| AffixTables.AddedKeepsContents | syntaxnet/affix.cc:131-187 | The table holds exactly the affixes of one more word |
| AffixTables.WrittenIsReadable | syntaxnet/affix.cc:73-123 | What a table writes passes every check of reading |
| AffixTables.SameEntrySameTable | syntaxnet/affix.cc:73-123 | Two tables with the same serialized form have the same affixes under the same ids and the same meaning |
| AffixTables.AffixTable.Resize | syntaxnet/affix.cc:245-262 | Rebuilds the chains over enough buckets without changing any affix |
| AffixTables.AffixTable.FindAffix | syntaxnet/affix.cc:232-243 | Finds the affix with a form exactly when the table holds one, whatever the hash |
| AffixTables.AffixTable.AddNewAffix | syntaxnet/affix.cc:215-230 | Adds an affix under the next id, keeping chains and all other affixes across resizes |
| AffixTables.AffixTable.AddUntilFound | syntaxnet/affix.cc:146-184 | Adds the affixes longer than the first one found and links each to the one a character shorter |
| AffixTables.AffixTable.AddAffixesForWord | syntaxnet/affix.cc:131-187 | The table then holds exactly the affixes up to the maximum length of all words added, linked downwards, earlier ids unchanged; returns the longest |
| AffixTables.AffixTable.Write | syntaxnet/affix.cc:112-123 | Form, length and link of every affix, id by id |
| AffixTables.AffixTable.Read | syntaxnet/affix.cc:73-104 | Accepts exactly the readable tables and then has their affixes under the same ids |
| AffixTables.WriteThenRead | syntaxnet/affix.cc:73-123 | A table survives writing and reading with the same ids, links and meaning |
| Segmentation.MergeSpellsText | syntaxnet/binary_segment_state.cc:53-100 | Whatever the starts, the words spell the characters other than breaks, in order |
| Segmentation.MergeSegments | syntaxnet/binary_segment_state.cc:53-100 | Whatever the starts, the words are ordered, disjoint spans that begin and end with no break, leave out only breaks, begin exactly at the starts that are no breaks and at the first character that is none, and have the break level of the character before them |
| Segmentation.BreakFreeWord | syntaxnet/binary_segment_state.cc:53-100 | The word of a span without breaks is the text it spans |
| Segmentation.TokenIdsNumber | syntaxnet/segmenter_utils.cc:56-64 | The byte map has each token's number on exactly its bytes |
| Segmentation.TokenIdsBelong | syntaxnet/segmenter_utils.cc:56-64 | For any tokens, also ones that overlap or are out of order, a byte has the number of the first token that reaches it, or -1 if that begins behind it |
| Segmentation.SplitsIffNotInterior | syntaxnet/segmenter_utils.cc:66-83 | A character is split off exactly when it does not continue a token |
| Segmentation.GoldRecovers | syntaxnet/binary_segment_transitions.cc:69-91 | The starts of a segmentation bring its tokens back |
| Segmentation.RoundTripIffWellSegmented | syntaxnet/segmenter_utils.cc:40-91 | The gold starts give back start, end and word of every token if and only if the document is well segmented: ordered, disjoint, aligned tokens that leave out only breaks and whose ends are no breaks |
| Segmenter.DocTokensConsistent | syntaxnet/segmenter_utils.cc:93-109 | True exactly when every token begins and ends with a whole character |
| Segmenter.ByteTokens | syntaxnet/segmenter_utils.cc:56-64 | The padding loops compute the byte map |
| Segmenter.SetCharsAsTokens | syntaxnet/segmenter_utils.cc:122-136 | One token for every character with its bytes |
| Segmenter.ConvertToCharTokenDoc | syntaxnet/segmenter_utils.cc:40-91 | Refuses exactly misaligned documents; otherwise the characters carry the split marks |
| Segmenter.PerformAction | syntaxnet/binary_segment_transitions.cc:84-91 | Consumes a character and records it if the action is a start or negative |
| Segmenter.PerformAll | syntaxnet/binary_segment_transitions.cc:84-91 | After any actions the stack holds exactly the characters started |
| Segmenter.FollowGold | syntaxnet/binary_segment_transitions.cc:69-74 | Consumes all characters, with a start at the first one and at those marked with a break, and a merge at the others |
| Segmenter.AddParseToDocument | syntaxnet/binary_segment_state.cc:53-100 | The loop with its first-token and break-level flags computes the words of the recorded starts |
| Segmenter.SegmentBy | syntaxnet/binary_segment_state.cc:53-100 | For any action sequence the output is a segmentation that spells the text without breaks, with words beginning exactly where an action starts one and at the first character that is no break, and break levels from the character before |
| Segmenter.GoldRoundTrip | syntaxnet/segmenter_utils.cc:40-91 | The whole chain accepts exactly aligned documents and recovers exactly the well segmented ones |
| DecodedReader.BestIsFirstBest | syntaxnet/reader_ops.cc:365-374 | The scan finds the first of the best allowed actions, and nothing only if none is allowed |
| DecodedReader.PerformActs | syntaxnet/reader_ops.cc:358-387 | Each loaded slot with k loaded slots before it takes the first best allowed action by row k of the scores, or action 0 if none is allowed; acting fails exactly if this fails a check in some slot; under each id the state of the last slot that finished with it is filed, and nothing else changes |
| DecodedReader.SkipAllTakes | syntaxnet/reader_ops.cc:127-137 | The finished slots, one after the other, take sentences from the corpus in order, up to the first that is not finished from the start or to the end of the corpus; other slots stay, and the ids come to the queue in reading order |
| DecodedReader.SentenceBatch.AdvanceSentence | syntaxnet/sentence_batch.cc:31-43 | Loads the next sentence or empties the slot, with the size adjusted before and after reading |
| DecodedReader.DecodedParseReader.BestAction | syntaxnet/reader_ops.cc:365-374 | The first of the best allowed actions, or 0 if none is allowed |
| DecodedReader.DecodedParseReader.PerformActions | syntaxnet/reader_ops.cc:358-387 | The loop does to the slots and the filed parses what is stated for `PerformActs`, and fails exactly when that fails a check |
| DecodedReader.DecodedParseReader.AdvanceSentence | syntaxnet/reader_ops.cc:337-342 | Replaces the slot's state and puts the id of a new sentence in front of the queue |
| DecodedReader.DecodedParseReader.SkipFinalStates | syntaxnet/reader_ops.cc:127-137 | Every slot moves on while its state is final, sentences that are finished from the start included |
| DecodedReader.DecodedParseReader.StartEpoch | syntaxnet/reader_ops.cc:140-145 | Rewinds and loads every slot once, finished from the start or not |
| DecodedReader.DecodedParseReader.EmitReady | syntaxnet/reader_ops.cc:404-410 | The loop pops and emits the longest filed stretch at the back of the queue, in queue order, in which no id comes twice, and unfiles it |
| DecodedReader.DecodedParseReader.Compute | syntaxnet/reader_ops.cc:121-187 | A call makes the step that the run theorems are about, for any corpus, and fails exactly when that fails a check; the object stays what its calls have made of it |
| ReaderRuns.EveryRunIsSteady | syntaxnet/reader_ops.cc:121-187 | In every run, for any corpus and scores: the size counts the loaded slots; a slot holds a state that decoding its own sentence with best actions has reached; every filed and emitted parse is the final state that decoding its sentence, not finished from the start, ends in; and the ids emitted and then queued are those read, in reading order over all epochs |
| ReaderRuns.DrainInOrder | syntaxnet/reader_ops.cc:400-410 | Emitting from the back of the queue keeps the reading order |
| ReaderCompleteness.EmittedAreRead | syntaxnet/reader_ops.cc:337-410 | With different ids, document i emitted is a parse of sentence i read |
| ReaderCompleteness.RefillBegins | syntaxnet/reader_ops.cc:139-145 | A new epoch loads sentence i into slot i, as far as there are any, and queues their ids in reading order |
| ReaderCompleteness.FinishedStartIsNeverFiled | syntaxnet/reader_ops.cc:127-137 | A sentence that is finished from the start is never filed |
| ReaderCompleteness.NothingPassesFinishedStart | syntaxnet/reader_ops.cc:127-145 | No run emits anything past a sentence that is finished from the start |
| ReaderCompleteness.RunIsUpToDate | syntaxnet/reader_ops.cc:121-187 | If all sentences begin unfinished, then after every call the queue holds only sentences of the current epoch, no finished state is left in a slot, and only a sentence that is still being parsed holds up the queue |
| ReaderCompleteness.CompleteIffAllBeginUnfinished | syntaxnet/reader_ops.cc:139-145 | A run that has finished an epoch has given back all sentences of all finished epochs if and only if no sentence of the corpus is finished from the start |
| ReaderCompleteness.ReaderKeepsOrder | syntaxnet/reader_ops.cc:121-187 | The same for the object, after any calls |
| ReaderWitnesses.FinishedSlotFails | syntaxnet/reader_ops.cc:358-387 | A call that finds a finished state in a slot fails a check |
| ReaderWitnesses.FirstSentencesMustBeginUnfinished | syntaxnet/reader_ops.cc:140-145 | If one of the sentences loaded first is finished from the start, every run fails at its second call |
| ReaderWitnesses.FinishedStartBlocksQueue | syntaxnet/reader_ops.cc:127-137 | Arc-standard decoding of three sentences, the second one empty: the epoch ends with one parse emitted and the others held up |
| ReaderWitnesses.RepeatedIdLosesParse | syntaxnet/reader_ops.cc:380-384 | Arc-standard decoding of two sentences with one id: the second parse replaces the first, is emitted in its place, and the epoch is not complete |

## Left out

- TensorFlow kernels, tensors, protocol buffers, files, registries and Python graph building.
- History recording in `PerformAction`, and the texts of states, actions and errors, line numbers included.
- Floating point: scores are exact real numbers without NaN or infinity. Integers are unbounded except for FML arguments.
- Other transition systems (tagger, morpher, shift-only, head, label, once), feature extractors and workspaces.
- Byte-level UTF-8 decoding: a text is a sequence of characters with their numbers of bytes. Text that is empty and has no token is not converted, since the source fails a check on it.
- FML: characters beyond ASCII outside strings and comments are not modelled (the source's item numbers clash with them); a NUL character ends the input, as its item number is that of the end; `safe_strto32` is taken as an optional sign and decimal digits in the 32-bit range.
- AffixTables.AffixTable.FindAffix: forms have no NUL bytes and any function that stays below the number of buckets stands for the masked hash. Affixes refer to each other by id rather than by pointer, and lookups by id are left out.
- DisjointSets.DisjointSetForest.UnionOfRoots: is told, for the specification only, which elements the roots were found for.
- ParsingPipeline.TrainOnDocument: documents come one at a time.
- BeamStates.BeamState.Reset: the sentence read next is a parameter; reading and preprocessing it are left out.
- DragnnBeam.Beam.FindPreviousIndex: at step 0 it needs the stored index of the component before to be set, which the source checks.
- DecodedReader.DecodedParseReader.Compute: token accuracy, features and the annotation format are left out; a parse is a sentence with its final state. After a failed check nothing is stated. The run theorems need at least one slot and a system in which no action can be performed on a final state, which `ArcStandardSystem.ArcStandardHalts` shows for arc-standard; repeated ids have no exact condition on the corpus, since with them the order in which parses finish decides.
- `IsTerminal`, `history()` and other read-only accessors of the beams and states.
