# Proofs about the model platform

This project models the parts of the platform where text, graph, history and computation have to agree,
and proves what they promise. Every module is named for what it models; `*Theorems` and `*RoundTrip`
modules hold the main results about the modules before them.

**Text and graph.** `TextSyntax` and `TextParser` read the textual notation, `TextPrinter` writes it,
`TextRoundTrip`, `PrintedText` and `Reprinting` show that the two undo each other and that printing is
canonical. `TextLayout` tells the notation the other way round, by every way of spelling it, `TextFaults` every way
of going wrong, and `TextComplete` shows that the parser accepts and refuses exactly these.
`TextDiff` turns an edited text into operations; `DiffAcceptance`, `DiffErrors`, `DiffRealisation`,
`DiffTheorems` and `TextSync` show which edits it accepts, that its errors are real and that its operations
rebuild exactly the edited document; `DiffReports` tells its errors and operations from the document,
`EditedTree` the edited model from the tree that was written.
`GraphStore` is the store's check-then-write of a batch, `GraphOps` the replay of a recorded one, and
`StoreTheorems` and `EditTheorems` join them end to end; `BatchReports` tells the errors of a batch from the
batch; `TempIdReuse` is about batches whose temporary ids are not their own. Which characters are alphanumeric is
a parameter of the text modules, of which only disjointness from white space and the notation's own characters is
used.

**History.** `Versioning` is the commit chain with its live-graph shortcut, `VersionTheorems` shows that
every answer is a full replay, `SnapshotDiff` that replay undoes the comparison of two snapshots, `BranchEdits`
what edits do.

**Evaluation.** `EvaluationOrder` is Kahn's algorithm, `ModelEvaluation` the evaluation in its order, with
formulas abstract. The program reads the constraints out of a hash set, and which of several producers of a
symbol counts depends on how they come to be listed: `OrderIndependence` and `OrderFailures` say what all orders
of one listing share, `Listings` what all listings do; `EvaluationLaws` tells who waits for whom, and what is
recorded, from the listed constraints.

**The action language.** `AlfSyntax` is its grammar, `AlfParser` the parser, `AlfPrinter` a printer with
minimal brackets, `AlfExprRoundTrip`, `AlfRoundTrip` and `AlfStability` the proof that parsing inverts it
and that all it accepts can be printed. `AlfLayout` tells the language by every way of spelling it, grammar rule by
grammar rule; `AlfLaidOut`, `AlfPrograms` and `AlfComplete` show that the parser accepts exactly these.
`AlfIr` is the compilation to messages.

**Search and view.** `Traversal`, `TraversalTheorems` and `Pagination` are the budgeted search and its
pages, `TracedEdges` says what it finds on the stored edges alone; `Clustering` and `ClusteringTheorems` are the
collapsing of subsystems out of view.

**Wire and architecture.** `LspFraming` is message framing; `DesignSpace`, `DesignSpaceBuilder` and
`DesignSpaceTheorems` the encoding and construction of design spaces, `DesignLaws` and `BuildLaws` what comes out
of them item by item; `ChoiceResolution` the resolution of choices, `ChoiceTheorems` what it keeps, on the stored
properties.

Shared ground: `SysmlModel`, `Ordering`, `Scanning`, `ReadingBack`, `Decimals`, `Containment`.

Methods follow the program's loops and in-place updates; each is proved equal to, or characterised by, a
specification function, and the theorems are about those functions. The laws of `TextComplete`, `AlfComplete`,
`DiffReports`, `EditedTree`, `BatchReports`, `SnapshotDiff`, `TracedEdges`, `ChoiceTheorems`, `DesignLaws`,
`BuildLaws` and `EvaluationLaws` tie those functions to the data they read, in terms that do not mention them.

## What the code does differently from what it says

Each of these is a lemma with the exact condition, and for most of them another shows an input or a run that
falls on the failing side.

- Main can be edited through the branch endpoint, which does not touch the live graph; the two then differ
  exactly when the live body does not already show what the edit asks for
  (`BranchEdits.EditingMainDesynchronises`, `BranchEdits.EditedMainIsLost`).
- The list commented as holding every edge kind holds nine of twenty-one, so the shortcut through the live
  graph can lack edges, and its answer for a commit can change with the next write
  (`VersionTheorems.ShortcutIsExactIff`, `VersionTheorems.UnreadEdgeIsLost`).
- Comparing two snapshots and replaying the difference does not give the newer one where a kind has changed, a new
  element is inactive or not a person's, a property has been dropped or a body or edge outlives its element
  (`SnapshotDiff.RestoredIff`).
- Resolving a choice commits only the change of state, not the selected option or the connections
  (`ChoiceResolution.RecordIsExactIff`, `ChoiceResolution.FirstSelectionIsLost`).
- A batch may name two new elements by one temporary id, and then adds fewer elements than it creates,
  possibly as a containment cycle (`TempIdReuse.OneElementPerCreateIff`, `EditTheorems.SharedTempIdMakesACycle`).
- A temporary id may also be an element's own id, and replay differs from the store from the first operation on
  that means the one element in the one and the other in the other (`TempIdReuse.ReplayAgreesIff`,
  `TempIdReuse.HarmlessReuse`, `EditTheorems.RealIdAsTempIdBreaksReplay`). Batches that come from a diff do
  neither.
- The listing of the constraints, which no caller sees, can show wherever a symbol has two producers: in the
  outputs, and even in whether the constraints are refused as circular (`Listings.ListingFreeIff`,
  `Listings.OtherListingIsCircular`). What a failed evaluation leaves behind depends on listing and order but for
  what every constraint at which it can fail needs (`Listings.ListedComputedIff`).
- `==` and `!=` take any values in the action language, and only numbers in its runtime, which puts them
  together from less and greater (`AlfIr.OperatorKeepsItsMeaning`, `AlfIr.EqualTruthsAreRefused`).
- Renaming to a blank name is refused, creating under one is not (`EditTheorems.AcceptedEditIsStored`).
- Options that are empty or no strings are dropped from an encoded choice without being reported
  (`DesignSpace.OptionsAreKeptIff`); names shared between connectors, variables and options, and parameters
  that share an id, are built into the wrong nodes or pairs
  (`DesignSpaceTheorems.ConnectionsFindConnectorsIff`, `DesignSpaceTheorems.ObjectivesArePairedIff`).
- An element with an empty id, and what hangs below it alone, is never collapsed
  (`Clustering.SearchIsCompleteIff`).
- A conditional without an else clause cannot stand before a statement led by the name `else`
  (`AlfRoundTrip.UnsaidElseIsRefused`).

## Model

| member | source | states |
|---|---|---|
| SysmlModel.KeywordRoundTrip | packages/sysml-textual/src/lib.rs:24-80 | The keyword printed for a kind is read back as that kind, for every kind; so no two kinds share a keyword |
| Scanning.Cursor.SkipWhitespace | packages/sysml-textual/src/parser.rs:112-120 | Skipping stops at the first character that is not Unicode white space, with line and column kept right for every later error message |
| TextParser.Parse | packages/sysml-textual/src/parser.rs:46-55 | The cursor's parse is the reading the grammar gives a document: its elements in order, or the error at the position where reading first fails; it terminates on every input |
| TextParser.ParseElement | packages/sysml-textual/src/parser.rs:127-155 | Keyword, name, optional anchor and optional block are read in that order, with the span from the keyword to the end |
| TextParser.ParseIdentifier | packages/sysml-textual/src/parser.rs:177-228 | A bare or quoted name, quoted ones with their escapes undone, or the error of an unterminated name or escape |
| TextParser.TryParseAnchor | packages/sysml-textual/src/parser.rs:232-272 | An anchor's id up to white space or `*`, no anchor at all, or the error of a malformed one |
| TextParser.ParseBlock | packages/sysml-textual/src/parser.rs:274-291 | A block's elements up to its closing brace, or the error of an unterminated block |
| TextLayout.LaidOutIsParsed | packages/sysml-textual/src/parser.rs:46-291 | Any text that spells elements, told by putting its pieces one in front of the other (keywords in either case, any white space between tokens, names bare or quoted with their escapes, anchors and blocks there or not), parses to just these elements, in order and nested as written, each spanning its text |
| TextFaults.FaultIsReported | packages/sysml-textual/src/parser.rs:46-291 | A text that spells elements up to one that goes wrong in one of ten ways, however deep inside blocks, is answered with the reason of that way at the place where the keyword, name, opening quote, anchor or end stands |
| TextComplete.ParsesIff | packages/sysml-textual/src/parser.rs:46-291 | For every text: parsing succeeds if and only if some elements spell it, and then answers with them |
| TextComplete.FailsIff | packages/sysml-textual/src/parser.rs:46-291 | For every text: parsing fails if and only if it goes wrong in one of the ten ways, and then reports that one |
| TextComplete.LineIs | packages/sysml-textual/src/parser.rs:79-110 | A place's line is one more than the number of line breaks before it |
| TextComplete.ColumnIs | packages/sysml-textual/src/parser.rs:79-110 | Its column is one more than the number of characters since the last of them |
| TextPrinter.PrintTree | packages/sysml-textual/src/printer.rs:8-39 | The printed text is that of the hierarchy read as outlines: roots and, at every level, children in the order of their ids |
| TextPrinter.PrintElement | packages/sysml-textual/src/printer.rs:41-71 | One element's text at its depth is appended, everything printed before stays |
| TextRoundTrip.TwoReplacesEscape | packages/sysml-textual/src/printer.rs:83-84 | Doubling backslashes first and escaping quotes second escapes every character exactly once |
| TextRoundTrip.IdentifierReadsBack | packages/sysml-textual/src/printer.rs:75-86 | Every name, empty, quoted or with escapes, is read back from its printed form, and reading stops just behind it |
| TextRoundTrip.PrintThenParse | packages/sysml-textual/src/printer.rs:8-86 | Parsing a printed hierarchy succeeds and, spans aside, gives the hierarchy: kinds, names, ids and nesting |
| PrintedText.PrintingIgnoresRowOrder | packages/sysml-textual/src/printer.rs:1-3 | The text depends on the graph alone: any order of the element and edge rows prints the same |
| Reprinting.PrintParsePrint | packages/sysml-textual/src/printer.rs:1-3 | A printed graph, parsed, read as elements and edges in the order of the text and printed again from those, everything sorted anew, gives the same text byte for byte, shared elements included |
| PrintedText.PrintedTextDiffsEmpty | packages/sysml-textual/src/diff.rs:216-223 | The freshly printed text of a hierarchy is accepted by the diff if and only if no element has two parents, and then yields no operation |
| TextDiff.ComputeDiff | packages/sysml-textual/src/diff.rs:48-100 | The walk over a document with its accumulated operations, errors, seen ids and counter gives the diff, every error of the document included |
| TextDiff.Walker.WalkElement | packages/sysml-textual/src/diff.rs:102-189 | One node's operations and errors, a duplicate's subtree skipped, children walked under the node's own reference |
| DiffAcceptance.DiffAcceptsFaithfulEdits | packages/sysml-textual/src/diff.rs:64-163 | A diff is accepted if and only if the document's anchors are duplicate-free, are exactly the model's ids and keep every kind, even though a duplicate's subtree is never looked at |
| DiffTheorems.DiffRealisesTheEdit | packages/sysml-textual/src/diff.rs:1-36 | Applying an accepted diff to the model gives exactly the edited document: its elements and no others, each of the kind and under the name written and below the parent written, new elements under their temporary ids, all else unchanged |
| DiffTheorems.EveryStepKeepsTheForest | packages/sysml-textual/src/diff.rs:3-7 | Before and after every operation of an accepted batch containment is acyclic with single parents, and all an operation refers to is already there, even when the edit swaps ancestor and descendant |
| DiffErrors.RejectionsAreReal | packages/sysml-textual/src/diff.rs:44-47 | Every error of a rejected edit is real: a duplicate occurs twice, a changed kind differs, an unknown id is not in the model; and every element the document does not anchor is reported missing |
| DiffReports.RejectedWith | packages/sysml-textual/src/diff.rs:64-163 | The errors as a function of the document: in reading order, for each anchored element looked at, the second use of an id, the changed kind or the unknown id; then every element of the model not among them; a diff is rejected exactly when there is any |
| DiffReports.AllAreVisited | packages/sysml-textual/src/diff.rs:102-120 | Where no id is anchored twice every anchored element is looked at |
| DiffReports.AcceptedOpsAreCalled | packages/sysml-textual/src/diff.rs:102-189 | An operation is among an accepted diff's if and only if some written element calls for it: a creation, a name that differs, a parent that differs |
| DiffReports.AcceptedOpsOnce | packages/sysml-textual/src/diff.rs:102-189 | And none is given twice |
| DiffReports.AcceptedOpsInOrder | packages/sysml-textual/src/diff.rs:102-189 | The operations come in the order the elements are written in, an element's renaming before its move |
| EditedTree.TreeIsBuilt | packages/sysml-textual/src/diff.rs:1-36 | By the way that leads to it in the written tree: after an accepted edit every element is there under its anchor, or under `__new_` and the number of new elements written before it, has the kind and name written, and is contained in just the element it is written in |
| EditedTree.NothingElse | packages/sysml-textual/src/diff.rs:1-36 | And every element of the edited model is written, in one place |
| TextSync.DiffAfterApplyIsEmpty | packages/sysml-textual/src/diff.rs:48-100 | After applying an accepted diff, the same text with its new elements anchored differs from the model in nothing |
| GraphOps.ApplyOpCommutes | apps/api/src/store/versioning.rs:1228-1274 | One replayed operation and an injective renaming of ids may be done in either order |
| GraphOps.ApplyOpsCommute | apps/api/src/main.rs:1467-1492 | Replaying a batch under real ids gives what replaying the client's batch gives with its temporary ids renamed |
| Containment.AcyclicMeansNoCycle | packages/sysml-textual/src/diff.rs:3-7 | A falling rank exists exactly when no element lies below itself; what every acyclicity claim here means |
| GraphStore.IsDescendant | apps/api/src/store/neo4j.rs:907-935 | The visited-set search answers true exactly for the element itself and all below it, and ends even where containment has cycles |
| GraphStore.Planner.CheckOp | apps/api/src/store/neo4j.rs:718-800 | One operation is checked against the model and the batch so far, or its error recorded, the adjacency index kept in step |
| GraphStore.LiveGraph.ApplyGraphOps | apps/api/src/store/neo4j.rs:689-905 | A batch is written whole, or, if any operation is refused, nothing is and every error is reported |
| StoreTheorems.StepAgrees | apps/api/src/store/neo4j.rs:718-895 | An operation that passes its check is written as checked and replayed as written: edges, parents and ids agree in all three |
| StoreTheorems.MoveIsAcyclic | apps/api/src/store/neo4j.rs:758-799 | Moving an element makes a containment cycle exactly when the new parent is the element or lies below it: what the ancestry check refuses |
| StoreTheorems.BatchIsAppliedIff | apps/api/src/store/neo4j.rs:681-804 | A batch is applied if and only if, run in order, every operation finds what it refers to, none creates what exists, containment never has a cycle, and nothing is renamed to a blank name |
| BatchReports.EachIsAnswered | apps/api/src/store/neo4j.rs:718-804 | Whatever came before, an operation adds exactly the error of what stands against it, under its place in the batch, and passes exactly if nothing does; what stands against it is told on the model the passing operations before it leave |
| BatchReports.BatchIsAnswered | apps/api/src/store/neo4j.rs:681-804 | All errors of a batch, and the ids given to its new elements, as a function of the batch and the model alone |
| StoreTheorems.AppliedBatchIsReplayed | apps/api/src/main.rs:1433-1438 | What the store holds after a batch is what replaying the recorded batch gives, and the client's batch but for the new ids; containment stays a forest |
| EditTheorems.AcceptedEditIsStored | apps/api/src/main.rs:1411-1446 | From text to commit: an accepted edit is applied exactly when it renames nothing to a blank name; what is then stored is the replayed commit, shows the edited document under real ids (elements, kinds, names, parents) and has all other edges and bodies as before |
| EditTheorems.SharedTempIdMakesACycle | apps/api/src/store/neo4j.rs:735-757 | A batch that uses one temporary id for two new elements can pass every check and be written as an element contained in itself |
| EditTheorems.RealIdAsTempIdBreaksReplay | apps/api/src/main.rs:1467-1492 | A rename of an element whose id the batch also uses as a temporary one makes the live model and the replayed commit differ |
| TempIdReuse.OneElementPerCreateIff | apps/api/src/store/neo4j.rs:735-757 | A batch that passes adds one element for each that it creates if and only if no two of them share a temporary id |
| TempIdReuse.ReplayAgreesIff | apps/api/src/store/neo4j.rs:806-895 | With distinct temporary ids, even ones that are ids of elements, the stored model is the replayed one after every operation if and only if none renames or moves, with an effect on either, an element whose id is also a temporary one, or hangs an element below a new one not yet there |
| TempIdReuse.FirstCrossingParts | apps/api/src/main.rs:1467-1492 | The first operation that does so is where the stored and the replayed model part |
| TempIdReuse.HarmlessReuse | apps/api/src/main.rs:1467-1492 | An element's id used as a temporary one does no harm if no operation renames or moves its element and none refers to it as a parent before it is given to the new one |
| TempIdReuse.ParentOfTwoMeaningsIsLost | apps/api/src/store/neo4j.rs:816-879 | Without the second half of that condition the store loses an edge that replay has |
| Versioning.Service.ResolveSnapshot | apps/api/src/main.rs:756-807 | The recursion over fork points, the collected and reversed chain and the replay give the commit's resolution, errors included; it terminates on every ordered history |
| Versioning.Service.GrowChain | apps/api/src/main.rs:787-799 | The branch's own commits up to a given one, oldest first |
| Versioning.Service.BuildSnapshot | apps/api/src/main.rs:724-742 | The live graph with only the edges of the nine listed kinds |
| Versioning.Service.RecordWrite | apps/api/src/main.rs:816-842 | A write to the live graph is recorded on main, unless it changed nothing; without a main branch it is an error, the write staying |
| Versioning.Service.CommitDiff | apps/api/src/store/versioning.rs:559-601 | A commit is added under the branch's head, and the head moves to it |
| Versioning.Service.CreateBranch | apps/api/src/store/versioning.rs:522-557 | A branch starts, and for ever forks, at the given commit or main's head; a name is taken once |
| Versioning.Service.BranchUpdateElementBody | apps/api/src/main.rs:601-697 | A branch edit commits just the properties and the rationale that differ from the resolved ones, or fails and changes nothing |
| SnapshotDiff.ComputeSnapshotDiff | apps/api/src/store/versioning.rs:995-1098 | Every entry states a real difference, and replaying all of them on the old snapshot gives the new one if and only if the new one can be told: kinds unchanged, new elements active and a person's, no edge of both outliving an end, bodies only added to |
| SnapshotDiff.RestoredIff | apps/api/src/store/versioning.rs:995-1098 | That condition is exact: what the entries restore is the new snapshot if and only if it can be told |
| VersionTheorems.ResolveIsReplay | apps/api/src/main.rs:756-807 | Every commit resolves to the replay of its whole history along its parents, except that answers drawn from the live graph lack the unlisted edge kinds; it fails exactly when the history leads to a commit that is not there |
| VersionTheorems.ShortcutIsExactIff | apps/api/src/main.rs:57-69 | A commit resolves to its full replay if and only if it is not answered from the live graph or the live graph has only edges of the nine kinds |
| VersionTheorems.NextKeepsSound | apps/api/src/main.rs:810-842 | Every exact write, new branch and branch edit keeps the live graph equal to main's replayed history |
| VersionTheorems.EveryRunIsSound | apps/api/src/main.rs:756-842 | So does every sequence of requests from a new project on |
| VersionTheorems.AnswersNeverChange | apps/api/src/main.rs:744-755 | Over all histories, branches of branches included, a commit's replay never changes, and neither does its answer, except where it came from a live graph with edges of other kinds and main has had a commit since |
| VersionTheorems.UnreadEdgeIsLost | apps/api/src/main.rs:744-807 | Two writes are enough for that: the first commit is answered without its edge, and otherwise after the second |
| BranchEdits.EditTakesEffect | apps/api/src/main.rs:634-671 | Replaying a recorded edit gives the element the requested properties and rationale and touches nothing else |
| BranchEdits.EditIsEffective | apps/api/src/main.rs:634-671 | A recorded edit changes the model unless nothing was recorded |
| BranchEdits.EditingMainDesynchronises | apps/api/src/main.rs:601-697 | Editing main through the branch endpoint leaves the live graph equal to main's replay if and only if the live body already has the rationale and every property the request asks for |
| BranchEdits.EditedMainIsLost | apps/api/src/main.rs:601-697 | One write and one such edit from a new project on are enough for the live graph not to be main's replay |
| BranchEdits.TextEditIsExact | apps/api/src/main.rs:1416-1446 | A text edit's commit replays to exactly what the store then holds, so it meets the versioning theorem's assumption |
| EvaluationOrder.TopologicalOrder | apps/api/src/parametrics.rs:294-333 | A permutation of all constraints with every producer before its users, or an error exactly when they need each other in a circle; in-degrees never underflow, repeated uses included |
| EvaluationOrder.Release | apps/api/src/parametrics.rs:317-325 | Finishing a constraint lowers what waits for it by what it was waited for, and queues just those that wait for nothing more |
| EvaluationOrder.CountNeeds | apps/api/src/parametrics.rs:295-312 | In-degrees count each constraint's needs with repetition, and the dependents' lists are the same relation read the other way |
| EvaluationOrder.OrderMeansNoCircle | apps/api/src/parametrics.rs:291-293 | An order that respects all needs can exist only where there is no circle |
| Listings.NoCircleMeansOrder | apps/api/src/parametrics.rs:291-293 | Constraints that do not need each other in a circle can be ordered |
| ModelEvaluation.EvaluateModel | apps/api/src/parametrics.rs:450-498 | Evaluation in a valid order, stopped at the first failing formula; refused exactly for circular constraints |
| EvaluationLaws.FeedsIff | apps/api/src/parametrics.rs:294-312 | A constraint has to wait for another if and only if it uses a symbol which that other one is the last listed to produce |
| EvaluationLaws.EvaluatedAre | apps/api/src/parametrics.rs:465-498 | The ids recorded as evaluated are the first of the order: all if nothing failed, else up to the failed one, whose formula has no value on the final scope |
| EvaluationLaws.PassedOnTurn | apps/api/src/parametrics.rs:465-498 | Each constraint before that has a value on its turn, on the inputs and, over them, the outputs so far |
| ModelEvaluation.EvaluationSolves | apps/api/src/parametrics.rs:465-481 | An evaluation without error solves the constraints as equations |
| ModelEvaluation.EvaluationIsConfluent | apps/api/src/parametrics.rs:205-333 | With one producer for each symbol, any two valid orders of any two listings of the constraints both fail or both succeed, and then give the same outputs and scope, so hash-set order does not show |
| ModelEvaluation.CircularIsConfluent | apps/api/src/parametrics.rs:294-333 | Nor does it show in the refusal: with one producer for each symbol, one listing is circular if and only if another is |
| ModelEvaluation.SucceedsIffSolvable | apps/api/src/parametrics.rs:465-498 | Evaluation succeeds if and only if the equations have a solution, and its outputs are the only one |
| ModelEvaluation.FinalScopeSolves | apps/api/src/parametrics.rs:465-481 | In the final scope every constraint that does not use its own product equals its formula |
| ModelEvaluation.FailuresDependOnOrder | apps/api/src/parametrics.rs:483-496 | What a failed evaluation has already computed can depend on the order |
| ModelEvaluation.TwoProducersDependOnOrder | apps/api/src/parametrics.rs:295-300 | With two producers of a symbol that nothing orders even successful outputs depend on the order |
| OrderIndependence.OrderFreeIff | apps/api/src/parametrics.rs:291-333 | For one listing of constraints with formulas of their own, all orders agree on success, outputs and scope for all formulas and inputs if and only if, for every symbol a constraint uses, the other producers not forced behind it are none or are all forced before it with one forced behind the rest, and every symbol produced has a producer forced behind its others |
| OrderFailures.OneProducerSettles | apps/api/src/parametrics.rs:294-333 | One producer for each symbol meets that condition, in any listing |
| OrderFailures.AlwaysEvaluatedIff | apps/api/src/parametrics.rs:465-496 | For one listing whose readings are settled: where evaluation fails, every order evaluates a constraint before it fails if and only if every constraint at which some order fails needs it |
| OrderFailures.AlwaysComputedIff | apps/api/src/parametrics.rs:465-496 | For one listing whose readings are settled: where evaluation fails, every order leaves a symbol computed if and only if every constraint at which some order fails needs a producer of it |
| OrderFailures.ComputedAgrees | apps/api/src/parametrics.rs:465-496 | What two orders have both computed of a symbol with one producer is the same, failed or not |
| Listings.ListingFreeIff | apps/api/src/parametrics.rs:205-333 | For constraints with formulas of their own: neither the refusal as circular nor the outcome depends on how they are listed and ordered, for all formulas and inputs, if and only if each symbol has one producer or every listing is circular |
| Listings.OtherListingIsCircular | apps/api/src/parametrics.rs:295-333 | Three constraints of which one listing is evaluated alike in every order and another is refused as circular |
| Listings.ListedEvaluatedIff | apps/api/src/parametrics.rs:232-496 | With one producer for each symbol, where evaluation fails: every order of every listing gets past a constraint if and only if every constraint at which evaluation can fail needs it |
| Listings.ListedComputedIff | apps/api/src/parametrics.rs:232-496 | With one producer for each symbol, where evaluation fails: every order of every listing leaves a symbol computed if and only if every constraint at which evaluation can fail needs its producer |
| Traversal.RunTraversal | apps/api/src/traceability.rs:122-188 | Found are exactly the elements within the depth, the root aside, in the graph of each element's first neighbours; each with its distance and a last edge of a shortest way; truncation is reported exactly when an expanded element had more neighbours |
| TraversalTheorems.WithinMeansWalk | apps/api/src/traceability.rs:114-121 | An element is within so many hops exactly when a walk that long or shorter leads to it |
| TraversalTheorems.RecordedHopsAreShortest | apps/api/src/traceability.rs:106-112 | A recorded distance is the length of a shortest walk |
| TraversalTheorems.LevelsAreBounded | apps/api/src/traceability.rs:10-13 | At most the fan-out to the power of the distance are found at a distance |
| TraversalTheorems.UncutSearchIsExact | apps/api/src/traceability.rs:106-112 | A search that reports no truncation is exact for the whole graph |
| TraversalTheorems.SearchIgnoresRowOrder | apps/api/src/traceability.rs:158-160 | What is found, and how far away, does not depend on the order of the stored rows |
| TracedEdges.NeighboursAreSteps | apps/api/src/store/neo4j.rs:427-470 | An element's neighbours are the ends of its traced edges: against the arrow for an incoming search, along it for an outgoing one, either way for both, the five traced kinds named |
| TracedEdges.KeptAreFirst | apps/api/src/traceability.rs:146-165 | Where a neighbour is left out, as many as the budget allows are kept, and every kept one's id comes no later than its own |
| TracedEdges.AnswerIsTold | apps/api/src/traceability.rs:114-188 | The answer on the stored edges alone: a cut is reported if and only if an element nearer than the depth has too many neighbours; without one, an element is found if and only if a walk of traced edges no longer than the depth joins it to the root, and no such walk is shorter than its distance |
| TracedEdges.FoundIsReached | apps/api/src/traceability.rs:114-188 | In a cut search too whatever is found is joined to the root by as many traced edges as recorded, the last of the recorded kind |
| Pagination.FollowPages | apps/api/src/traceability.rs:270-286 | Following the cursors from the first page until none comes back gives the sorted ids with none missed or repeated, however the table iterates each time, and ends |
| Pagination.StaleCursorStartsOver | apps/api/src/traceability.rs:273-279 | A cursor that is no longer among the ids starts again at the first page |
| AlfParser.Parse | packages/alf-lite/src/parser.rs:35-44 | Parsing gives the grammar's reading of the text or its first error, and terminates on every input |
| AlfParser.ParseStatement | packages/alf-lite/src/parser.rs:176-196 | A statement by its leading word: loops refused by name, let, if, send, else an assignment or a call |
| AlfParser.ParseIf | packages/alf-lite/src/parser.rs:208-228 | Condition, block and optional else clause, the word `else` taken only as a whole word |
| AlfParser.ParseAssignOrInvoke | packages/alf-lite/src/parser.rs:239-275 | A leading name goes on with a point to an assignment or with a bracket to a call |
| AlfParser.ParseArglist | packages/alf-lite/src/parser.rs:277-294 | Arguments between commas up to the closing bracket |
| AlfParser.ParseOr | packages/alf-lite/src/parser.rs:342-358 | The loop associates to the left at its level |
| AlfParser.ParseCmp | packages/alf-lite/src/parser.rs:378-408 | At most one comparison, the longer operator tried first |
| AlfParser.ParseUnary | packages/alf-lite/src/parser.rs:462-473 | Any number of negations before an operand |
| AlfParser.ParsePrimary | packages/alf-lite/src/parser.rs:475-526 | A bracketed expression, a literal, a name or a property access; collection literals refused by name |
| AlfParser.ParseStringLiteral | packages/alf-lite/src/parser.rs:529-562 | A string with its escapes undone, unknown escapes kept, or the error of an unterminated one |
| AlfParser.ParseNumberLiteral | packages/alf-lite/src/parser.rs:566-606 | A real if a point and a digit follow, else an integer of at most 63 bits |
| AlfPrograms.LaidOutIsParsed | packages/alf-lite/src/parser.rs:5-21 | Any text that spells a program, told by putting its pieces one in front of the other (any white space where tokens may stand apart, none where they do not run together, redundant brackets, every escape), parses to the program it spells; the expression grammar is written out rule by rule |
| AlfComplete.ParsesIff | packages/alf-lite/src/parser.rs:5-21 | For every text: parsing succeeds if and only if some program, laid out in some way, spells it, and then answers with that program |
| AlfComplete.LayoutDecides | packages/alf-lite/src/parser.rs:5-21 | The notation is unambiguous: two layouts that come to the same text are of the same program |
| AlfExprRoundTrip.ExprReadsBack | packages/alf-lite/src/parser.rs:13-20 | An expression printed with brackets only where precedence, left association and the single comparison need them parses back to itself, wherever one of its level may stand |
| AlfExprRoundTrip.UnbracketedReadsAsPart | packages/alf-lite/src/parser.rs:13-20 | Where the printer does write brackets, leaving them out makes the text read as a proper part of the expression |
| AlfRoundTrip.PrintedProgramParses | packages/alf-lite/src/parser.rs:5-21 | Every program with legal names and literals parses back from its printed text |
| AlfStability.ParsedProgramPrints | packages/alf-lite/src/parser.rs:5-21 | Every program the parser accepts, from any text, can be printed and is parsed again from its printed form |
| AlfRoundTrip.UnsaidElseIsRefused | packages/alf-lite/src/parser.rs:215-221 | A conditional without an else clause is refused in front of a call or assignment to something named `else` |
| AlfIr.CompiledReadsBack | apps/api/src/alf_ir.rs:12-81 | Compilation loses nothing: the program can be told from its messages |
| AlfIr.OperatorKeepsItsMeaning | packages/fuml-runtime/src/org/axioma/fumlruntime/AlfCompiledActivityBuilder.java:438-478 | An operator, looked up by name, means on two values what it means in the language if and only if it is not an equality of two truths or two texts, which is an error at run time |
| AlfIr.ProgramKeepsItsMeaning | apps/api/src/alf_ir.rs:12-104 | Running the messages does to a world, faults included, what the program does if and only if the program comes to no such equality there, or itself ends in an error of that sort |
| AlfIr.EqualTruthsAreRefused | packages/fuml-runtime/src/org/axioma/fumlruntime/AlfCompiledActivityBuilder.java:438-478 | A program whose only statement sets a local to `true == true` runs in the language and fails as messages |
| Clustering.CollectDescendants | packages/diagram-engine/src/clustering.ts:105-119 | Everything reachable by at least one containment step through ids that are not empty, each once, cycles or not |
| Clustering.SearchIsCompleteIff | packages/diagram-engine/src/clustering.ts:105-119 | That is all that lies below an element if and only if no empty id lies below it |
| Clustering.BlankHidesItsOwn | packages/diagram-engine/src/clustering.ts:105-119 | A node below an element with an empty id is not found under the subsystem it belongs to |
| Clustering.NodesBounds | packages/diagram-engine/src/clustering.ts:134-134 | The smallest rectangle around the nodes |
| Clustering.ComputeClusteredNodes | packages/diagram-engine/src/clustering.ts:75-158 | One placeholder for each top-level subsystem with something to hide and all of that outside the expanded view, and just their descendants taken out |
| Clustering.PlaceholderIsInView | packages/diagram-engine/src/clustering.ts:39-61 | A placeholder's centre lies in the view, on either axis at its subsystem's own centre if that is well inside |
| ClusteringTheorems.NothingVisibleIsHidden | packages/diagram-engine/src/clustering.ts:125-140 | A node whose rectangle meets the view, or the expanded view, is never collapsed, whatever the edges |
| ClusteringTheorems.NothingIsLost | packages/diagram-engine/src/clustering.ts:125-158 | Where no element has two parents, shown nodes and cluster counts add up to all nodes |
| ClusteringTheorems.MeetIff | packages/diagram-engine/src/clustering.ts:35-37 | Two rectangles meet if and only if a point lies inside both |
| ClusteringTheorems.ExpandedIff | packages/diagram-engine/src/clustering.ts:21-37 | What meets the expanded view is exactly what, moved by at most the view's size and three thousand units, would meet the view |
| ClusteringTheorems.KeptInOrder | packages/diagram-engine/src/clustering.ts:157-158 | The nodes kept stay in their order |
| LspFraming.Writer.WriteFramedMessage | apps/lsp/src/main.rs:119-127 | One frame is appended: the length in bytes, an empty line, the body |
| LspFraming.Reader.ReadFramedMessage | apps/lsp/src/main.rs:131-155 | Header lines up to an empty one, the last length header counting, then that many bytes; the end of the stream, bad text and a short body each as their own outcome |
| LspFraming.ReadAll | apps/lsp/src/main.rs:90-101 | Reading until there is no message or reading fails gives all the stream's messages in order and the outcome that ends it |
| LspFraming.LengthReadsBack | apps/lsp/src/main.rs:119-151 | The printed decimal length is parsed back as the same number through trimming and prefix |
| LspFraming.FrameReadsBack | apps/lsp/src/main.rs:119-155 | A written message is read whole and reading stops just behind it, whatever follows |
| LspFraming.StreamReadsBack | apps/lsp/src/main.rs:119-155 | Any messages written one after the other are read one after the other, and then comes the end |
| DesignSpace.EncodeDesignSpace | packages/cem-core/src/archspace.rs:159-358 | The five loops give, for each kind of item, the encodable ones and, in one list, the skipped ones with their reasons |
| DesignSpace.EachItemOnce | packages/cem-core/src/archspace.rs:156-358 | Each item is either encoded or skipped, exactly once and in its place |
| DesignLaws.ParametersComeOut | packages/cem-core/src/archspace.rs:171-187 | A parameter is encoded, under its id and with its bounds, in its place, if and only if it has a lower bound below an upper one; else it is skipped for the reason that applies |
| DesignLaws.SelectionsComeOut | packages/cem-core/src/archspace.rs:189-217 | A choice is encoded with just its proper options in their order if and only if at least two differ; else skipped |
| DesignLaws.ConnectionsComeOut | packages/cem-core/src/archspace.rs:218-250 | A connection choice is encoded, source names as sources and target names as targets, if and only if both lists name connectors only; else skipped |
| DesignLaws.PairsComeOut | packages/cem-core/src/archspace.rs:252-285 | An incompatible edge is encoded as its two ends in order if and only if both are known; else skipped under its ends for its first unknown one |
| DesignLaws.ConstraintsComeOut | packages/cem-core/src/archspace.rs:286-319 | A constraint edge is encoded with the kind that is written and its two ends in order if and only if the kind is one of four and both ends are known; else skipped for its kind, or for its first unknown end |
| DesignLaws.EncodedObjectives | packages/cem-core/src/archspace.rs:320-355 | An objective for each variable, named for it, or one for the root where there are only choices; and the skipped items of the five loops one after the other |
| DesignSpaceTheorems.EncodedVariablesAreProper | packages/cem-core/src/archspace.rs:170-186 | Every encoded variable is a parameter's, with its own bounds, the lower below the upper |
| DesignSpaceTheorems.EncodedSelectionsAreProper | packages/cem-core/src/archspace.rs:188-215 | Every encoded selection has at least two different options, none empty, all among its element's own |
| DesignSpace.OptionsAreKeptIff | packages/cem-core/src/archspace.rs:190-215 | An encoded choice keeps all its listed options if and only if each is a string that is not empty |
| DesignSpace.EmptyOptionIsDropped | packages/cem-core/src/archspace.rs:190-215 | A choice of two options and an empty one is encoded with two, and nothing reports the third |
| DesignSpace.SummarizeInstance | packages/cem-core/src/archspace.rs:381-416 | Each choice's first present option, and all other present names in their order and as often as they occur |
| DesignSpace.UnaccountedKeepsOrder | packages/cem-core/src/archspace.rs:407-415 | The other names of two stretches of names are those of the first and then those of the second |
| DesignSpaceBuilder.BuildDesignSpace | packages/cem-archspace/src/dsg_builder.py:52-107 | The builder makes nodes and library calls in order, or fails at the first name it cannot find |
| DesignSpaceTheorems.NameMeans | packages/cem-archspace/src/dsg_builder.py:53-80 | A name stands for an option before a design variable before a connector before the root |
| BuildLaws.BuiltIs | packages/cem-archspace/src/dsg_builder.py:52-107 | What is built: the nodes numbered in order, then the calls in order, each connection from the nodes its sources stand for to the nodes its targets stand for, each incompatibility and constraint over the nodes its names stand for; a name stands for the last node made under it |
| BuildLaws.BuiltIff | packages/cem-archspace/src/dsg_builder.py:52-107 | A definition is built if and only if every name it mentions is that of a node; else the error names the first that is not |
| DesignSpaceTheorems.EncodedIsBuildable | packages/cem-archspace/src/dsg_builder.py:52-107 | Whatever is encoded can be built: every name looked up is defined by then |
| DesignSpaceTheorems.ConnectionsFindConnectorsIff | packages/cem-archspace/src/dsg_builder.py:82-85 | A connection choice is built on connectors if and only if none of its names is also a design variable's or an option's |
| DesignSpaceTheorems.OptionTakesConnectorsPlace | packages/cem-archspace/src/dsg_builder.py:53-85 | An encoded connector with the id of an encoded option: the connection choice is built on the option |
| DesignSpaceTheorems.ObjectivesArePairedIff | packages/cem-archspace/src/server.py:58-61 | Objective and design variable of the same place are paired if and only if no two encoded parameters share an id |
| DesignSpaceTheorems.SharedIdIsNotPaired | packages/cem-archspace/src/server.py:58-61 | Two encoded parameters of one id: an objective is paired with another variable's node |
| ChoiceResolution.Resolver.CheckConstraints | apps/api/src/archspace.rs:1023-1094 | The first incompatible element already selected, else the first linked one that disagrees, else none |
| ChoiceResolution.Resolver.Resolve | apps/api/src/archspace.rs:866-996 | A resolution sets its answer and the resolved state, or is refused and changes nothing |
| ChoiceTheorems.AcceptedIff | apps/api/src/archspace.rs:866-996 | On the stored properties: a selection is accepted if and only if it offers the option and nothing selected is incompatible or linked to something else; connections if and only if each prerequisite that is named, the source's and the target's, has the state `resolved` and the number of connections is in the range or list permitted |
| ChoiceTheorems.RefusedFor | apps/api/src/archspace.rs:866-996 | A refusal gives the first reason that applies and names the first element that stands against the request |
| ChoiceTheorems.AcceptedStores | apps/api/src/archspace.rs:940-996 | An accepted request stores the option, or the requested pairs in order, sources as sources, marks the element resolved, and changes nothing else |
| ChoiceTheorems.StepKeepsRules | apps/api/src/archspace.rs:998-1022 | Every request keeps the rules as read off the stored properties, and leaves resolved what was |
| ChoiceTheorems.EveryRunKeepsRules | apps/api/src/archspace.rs:998-1140 | In every run no two incompatible elements are both selected, linked ones agree, selections are among their options, every resolved connection choice has both prerequisites resolved and a permitted number of connections, and a selection choice is resolved just if it has a selection |
| ChoiceTheorems.CountIsPermitted | packages/sysml-core/src/lib.rs:901-939 | A cardinality allows a count if and only if it is within its range, or among its list, each read off the stored value |
| ChoiceResolution.RecordIsExactIff | apps/api/src/archspace.rs:964-994 | Replaying a resolution's recorded change gives what the store holds if and only if the answer was already there |
| ChoiceResolution.FirstSelectionIsLost | apps/api/src/archspace.rs:866-994 | The first selection on an unresolved choice is stored and is not in the replayed record |
| ChoiceResolution.SomeSelectionIsLost | apps/api/src/archspace.rs:866-994 | There is a project and a selection for which that happens |
| Decimals.DecimalReadsBack | apps/lsp/src/main.rs:123-123 | A number's decimal numeral denotes the number |
| Ordering.SortedIsUnique | packages/sysml-textual/src/printer.rs:22-33 | Sorting by id leaves no trace of the order before |
| Ordering.LeqIff | packages/sysml-textual/src/printer.rs:22-33 | One id comes before another if it is the beginning of it or has the smaller character where they first differ |

## Left out

- HTTP, databases, gRPC, the evaluation of formulas, the graph library's own answers and authentication:
  parameters, or not modelled.
- Requests run as atomic steps; interleaving of a request's reads and writes is not modelled.
- TextPrinter.PrintTree: asks for edges between listed elements and no containment cycle; for an edge to an
  unlisted element the program prints nothing, and cycles no root leads to it never reaches.
- TextRoundTrip.PrintThenParse: ids are not empty and have no white space and no `*`, where the anchor reader
  stops; other ids do not survive the notation.
- DiffTheorems.DiffRealisesTheEdit: edges join listed elements, no element has two parents and no id has the
  form of a temporary id; the program checks none of this.
- TempIdReuse.ReplayAgreesIff: is about the model after every operation; a batch that has crossed may, by later
  operations, still end with the store and the replay equal.
- GraphStore.LiveGraph.ApplyGraphOps: a batch that reuses one temporary id for two kinds would make two rows
  of one id; the model's map keeps the later.
- Versioning.Service.ResolveSnapshot: one project; commit ids of other projects count as unknown, where the
  program would find them and replay their branches. Audit records are left out.
- VersionTheorems.NextKeepsSound: writes are exact; writes that record less than they do, such as a canvas
  drag's empty body row, the merge of unreviewed properties or a choice's resolution, are outside it.
- Element bodies have a rationale and properties whose values are kept as text; other shapes of body are not
  modelled.
- ModelEvaluation.EvaluationIsConfluent: formulas read only what their constraint declares, as in all of this
  part.
- Listings.ListingFreeIff: speaks of all orders with every producer before its users; the program's
  first-in-first-out queue never takes some of them, so two producers of one symbol may in practice always be met
  in the same order. Its necessity is for constraints with pairwise different formulas.
- OrderIndependence.OrderFreeIff: one listing only, and all orders of it, as above.
- AlfIr.OperatorKeepsItsMeaning: on two numbers equality is what its composition from less and greater computes;
  the runtime feeds each operand's one output pin to both calls without a fork, and whether both then get a value
  is a question of its flow of tokens, which is not modelled.
- AlfIr.ProgramKeepsItsMeaning: a sequential meaning of the language, in which equality between values of
  different sorts is an error; the runtime's flow of tokens (equality's shared operands included), its reading of
  each local at most once and its rounding are not modelled.
- AlfComplete.ParsesIff: says which texts are refused, not with which error; the errors and their places are what
  the parser's methods state.
- AlfRoundTrip.PrintedProgramParses: a real literal is its digits before and after the point; conversion to
  floating point is not modelled.
- Clustering.NodesBounds: the canvas library's bounds, taken to be the smallest enclosing rectangle; rounding is left out.
- ClusteringTheorems.NothingIsLost: every edge leads to a node and no element has two parents; counts include
  ids without a node, and shared elements are counted twice.
- LspFraming.StreamReadsBack: bytes that are text are taken to survive the library's decoding unchanged.
- DesignSpace.EncodeDesignSpace: bounds are real numbers; what is not a number is not modelled.
- Traversal.RunTraversal: counts do not overflow 32 bits.
- Layout, exports, document import, optimisation, risk and coverage reports: easy members or library behaviour.
