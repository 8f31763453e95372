# Proofs about the algorithmic cores of the compiler

This project models the self-contained algorithms of the compiler in Dafny and proves what they are for. Code that
updates objects and buffers in place is modelled by classes and loops that do the same, and is proved against
specification functions; what the compiler relies on is then proved about those functions and about every reachable
state. `VERIFY` in the source becomes a precondition, an assertion that is proved, or a result that says that the check
failed.

- **Big integers** (`Fields`, `Limbs`, `LimbLoops`, `BigInts`). A number is a 128 bit word pair that holds either twice
  the number or an address with a packed limb count and capacity. All operators, in place and with any aliasing of
  operands, are exact and keep the one canonical representation, so equality and order of the representation are
  equality and order of the numbers.
- **Parser error recovery** (`TokenMachine`, `InsertCases`, `Frontier`, `SearchGraph`, `RecoverySearch`,
  `RecoveryPaths`, `Completion`, `Recovery`, `Replay`, `ParserApi`). The parser is a deterministic machine over
  core states and token positions. The bucket queue finds cheapest ways although it keeps only some of the edges; what
  is reported is cheapest among all ways the search generated from the states in front of the first error, can be
  replayed edit by edit and in groups, and exists whenever every parser state can be completed by insertions that are
  tried. Conversely every cheapest way is reported, unless a limit on edges or paths is met on it.
- **Sorted sets** (`SortedSets`, `FlatSets`). A sorted array with a gap on one side. Unions merge into the gap and over
  the elements already read, and leave the mathematical union with the gap on the other side.
- **Interning** (`WordTables`, `WordStrings`, `TreeLabels`, `Terms`, `ParameterizeSets`). The probing table is a finite
  map that survives wrap-around and rehashing. The words in a table and the strings they stand for are in a bijection
  that only grows. The labels of an unbalanced search tree order hash-consed constants as the recursive structural
  comparison does.
- **Constants** (`Folding`, `ConstantMeanings`, `Matching`). Substitution composes and keeps what constants denote, and
  matching a pattern is sound and most general: it changes the set of solutions exactly by the condition that the
  pattern folds to the value.
- **Scanning and calls** (`Scanners`, `CallArguments`). The 16 byte windows of the lexer find what a scalar loop finds,
  and hash words on the way. The flat buffer of call arguments is a stack of frames, one for each open call, in every
  run of the parser, and every call gets the names of its own arguments.

`Options`, `Orderings`, `Sequences`, `Bytes` and `Powers` hold what several of them need.

Three results are about code that does not do what it is for on all inputs. Each has its exact condition and an input
that violates it:

- `FlatSets.FlatSet.Add` gives the set with the element exactly if the key is known, or the gap is not in front of the
  elements and the set either grows or has a free slot behind them. With the gap in front, a new key overwrites another
  one (`FlatSets.AddBetween`), or is stored behind the buffer if it is the largest (`FlatSets.AddLargest`); after a
  union filled the buffer, any new key is stored behind it (`FlatSets.AddToFull`).
- `WordStrings.WordStringTable.GetInIdRange` gives an interned string its word exactly if no word with its hash in front
  of it in its run has used up the range of ids. Two strings with one hash and a range of one id violate this
  (`WordStrings.LookUpInterned`), although both are interned.
- A tree label is new and in order exactly down to depth 31, and for the one node at depth 32 whose path always turns
  right (`TreeLabels.ChildLabelIsRightIff`). The left child of a node at depth 31 gets the label of that node, and the
  right child that of the ancestor where the path turned left for the last time. Interning 33 constants in descending
  order gets there (`ParameterizeSets.InternDescending`); `ParameterizeSets.ParameterizeSet.Get` reports an insertion
  below depth 31 instead of making it, and still finds everything that is known.

## Model

| member | source | states |
|---|---|---|
| `Fields.InlineRoundTrip` | compiler/BigInt.h:47-52 | storing a number of [-2^126, 2^126) inline and reading it back gives the number, and the 128 bits are twice the number as a signed integer |
| `Fields.InlineIsCanonical` | compiler/BigInt.h:28-32 | inline fields are the fields of their value, so two inline numbers are equal exactly if their raw bits are |
| `Fields.ScaledInjective` | compiler/BigInt.h:95-102 | fields with the same scaled bits are the same fields |
| `Fields.TinyExact` | compiler/BigInt.h:78-83 | an inline number is `tiny` exactly if it lies in [-2^62, 2^62), and no allocated number is |
| `Fields.CheckedIsExact` | compiler/BigInt.h:90-97 | a scaled operation overflows 128 bits exactly if its result does not fit inline |
| `Fields.FastAdd` | compiler/BigInt.h:234-240 | the inline addition is used exactly if the sum fits inline, and then gives the sum |
| `Fields.FastSub` | compiler/BigInt.h:269-275 | the inline subtraction, and so the negation, is used exactly if the result fits inline, and then gives it |
| `Fields.FastMul` | compiler/BigInt.cpp:399-402 | the product of two inline numbers, of which only one is scaled, is used exactly if it fits inline, and then gives the product |
| `Fields.MulTinyExact` | compiler/BigInt.h:108-116 | the product of tiny numbers is computed without overflow and always fits inline |
| `Fields.PackRoundTrip` | compiler/BigInt.h:136-150 | packing a signed limb count and a capacity and unpacking them gives both back |
| `Fields.SignOfCount` | compiler/BigInt.h:62-64 | the sign bit of the high word is the sign of the packed limb count |
| `Limbs.HighestDifferenceDecides` | compiler/BigInt.cpp:209-212 | two magnitudes of the same length compare like the highest limbs in which they differ |
| `Limbs.LongerIsLarger` | compiler/BigInt.cpp:207-208 | of two trimmed magnitudes the one with more limbs is larger |
| `Limbs.ValInjective` | compiler/BigInt.cpp:321-324 | limbs of the same length with the same value are the same limbs |
| `LimbLoops.AddCommonLimbs` | compiler/BigInt.cpp:138-143 | the limbs written and the returned carry together are the sum of both operands, also if the output is one of them |
| `LimbLoops.SubCommonLimbs` | compiler/BigInt.cpp:145-150 | the limbs written minus the returned borrow are the difference, also if the output is one of the operands |
| `LimbLoops.AddLimbs` | compiler/BigInt.cpp:158-179 | writes the sum into one limb more than the longer operand has; the output may be the longer or the shorter operand |
| `LimbLoops.PropagateCarry` | compiler/BigInt.cpp:162-173 | a carry runs through full limbs and stops in the first other limb, or in a new one |
| `LimbLoops.SubLimbs` | compiler/BigInt.cpp:185-203 | writes the difference of a larger and a smaller magnitude in place; the borrow is always paid before the limbs end |
| `LimbLoops.PropagateBorrow` | compiler/BigInt.cpp:189-198 | a borrow runs through zero limbs and is paid by the first other limb, which exists |
| `LimbLoops.CompareMagnitude` | compiler/BigInt.cpp:206-214 | the order of two trimmed magnitudes is the order of their values |
| `LimbLoops.InnerTermFits` | compiler/BigInt.cpp:231-232 | a product of two limbs plus an old limb and a carry fits into 128 bits |
| `LimbLoops.MulLimb` | compiler/BigInt.cpp:217-225 | the limbs written and the returned high limb are the product with one limb |
| `LimbLoops.AddMulLimb` | compiler/BigInt.cpp:228-237 | the limbs written and the returned high limb are the old limbs plus the product with one limb |
| `LimbLoops.MulMagnitudes` | compiler/BigInt.cpp:412-416 | the rows of the schoolbook multiplication add up to the product, in as many limbs as both operands have |
| `BigInts.BigInt.SetLimbCountAndSign` | compiler/BigInt.h:122-128 | sets count and sign and keeps the capacity |
| `BigInts.BigInt.Finish` | compiler/BigInt.cpp:299-319 | turns limbs with leading zeros into the canonical form of the signed number, inline if it fits, including -2^126 |
| `BigInts.BigInt.Reserve` | compiler/BigInt.cpp:425-436 | makes room for at least the given number of limbs and keeps the number |
| `BigInts.BigInt.Magnitude` | compiler/BigInt.cpp:36-47 | the trimmed magnitude of an inline or allocated number |
| `BigInts.BigInt.StoreSignedAddition` | compiler/BigInt.cpp:380-397 | stores the sum of two signed magnitudes in this number, whose limbs may be those of either operand |
| `BigInts.BigInt.AddSlow` | compiler/BigInt.cpp:355-364 | the sum or difference in a new number |
| `BigInts.BigInt.AddAssignSlow` | compiler/BigInt.cpp:366-378 | adds or subtracts in place, with either sign and any aliasing, and keeps the canonical form |
| `BigInts.CapacitySuffices` | compiler/BigInt.cpp:240-242 | `addCapacity` limbs are enough for every signed sum |
| `BigInts.BigInt.AllocateMagnitude128` | compiler/BigInt.cpp:268-275 | a number from 128 bits of magnitude and a sign |
| `BigInts.BigInt.For128` | compiler/BigInt.cpp:246-266 | a number from any 128 bit integer, inline exactly if it fits |
| `BigInts.BigInt.Assign` | compiler/BigInt.cpp:277-293 | assignment copies the value, reuses the allocation if it is large enough, and works on itself |
| `BigInts.BigInt.NegateInPlaceSlow` | compiler/BigInt.cpp:344-353 | negates inline and allocated numbers, including the two numbers that change their representation |
| `BigInts.BigInt.NegateInPlace` | compiler/BigInt.h:225-232 | the negation in place is exact |
| `BigInts.BigInt.AddAssign` | compiler/BigInt.h:259-267 | `+=` adds the old values, also with itself as the operand |
| `BigInts.BigInt.SubAssign` | compiler/BigInt.h:293-301 | `-=` subtracts the old values, also with itself as the operand |
| `BigInts.BigInt.SubtractFrom` | compiler/BigInt.h:342-351 | subtracts this number from the other one in place |
| `BigInts.BigInt.Add` | compiler/BigInt.h:234-240 | `+` is the sum in canonical form |
| `BigInts.BigInt.Sub` | compiler/BigInt.h:269-275 | `-` is the difference in canonical form |
| `BigInts.BigInt.SubConsuming` | compiler/BigInt.h:284-292 | the difference of two temporaries reuses one of them and is exact |
| `BigInts.BigInt.MulSlow` | compiler/BigInt.cpp:399-419 | the product of two numbers of any representation and sign |
| `BigInts.BigInt.ProductOfMagnitudes` | compiler/BigInt.cpp:404-418 | multiplies two magnitudes and gives the signed canonical product |
| `BigInts.BigInt.Mul` | compiler/BigInt.h:303-307 | `*` is the product, on the tiny fast path and on the slow one |
| `BigInts.BigInt.MulAssign` | compiler/BigInt.h:309-316 | `*=` multiplies the old values, also with itself |
| `BigInts.BigInt.Equals` | compiler/BigInt.h:200-204 | `==` on raw bits or limbs is equality of the numbers |
| `BigInts.BigInt.Compare` | compiler/BigInt.h:206-210 | `<=>` is the order of the numbers, across inline and allocated operands |
| `BigInts.BigInt.CompareSlow` | compiler/BigInt.cpp:326-336 | compares by signed limb counts first and by limbs last |
| `BigInts.InlineIffFits` | compiler/BigInt.h:28-30 | a number is stored inline exactly if it lies in [-2^126, 2^126) |
| `BigInts.UniqueRepresentation` | compiler/BigInt.h:28-32 | equal numbers have the same representation: the same bits, or the same sign, count and limbs |
| `TokenMachine.Machine.RunAdd` | compiler/parse/parse.cpp:1252-1260 | parsing some tokens and then others is parsing all of them |
| `TokenMachine.Machine.RunUntilStop` | compiler/parse/parse.cpp:6645-6662 | the tokens that are counted up to an error are those that can be parsed again to end in front of it |
| `TokenMachine.SimpleParser.Parse` | compiler/parse/parse.cpp:6708-6728 | takes the tokens of the source in their order, each of which leads from one core state to the next, and ends behind as many as the limit, at the first rejected one with its error, or behind the end; the tokens are counted |
| `TokenMachine.Machine.RunIsTokenRun` | compiler/parse/parse.cpp:1252-1260 | parsing some tokens is ready in a core state exactly if these tokens of the source lead there one after the other |
| `TokenMachine.Machine.RunAllIsTokenRun` | compiler/parse/parse.cpp:6708-6728 | parsing everything stops exactly where the first token, or the end, is rejected by the core state that the tokens before it lead to, or where the end is accepted |
| `TokenMachine.SimpleParser.Apply` | compiler/parse/recovery.cpp:95-106 | a skip fails exactly at the end of the source, and otherwise moves on without being counted; an insertion fails exactly if the core state rejects the token, and otherwise is counted and stays where it is; a failed edit changes nothing but the status |
| `TokenMachine.Machine.TargetsAreStops` | compiler/parse/recovery.cpp:479-506 | the states an edit leads to are passed by parsing on after it, and are done or at most one token in front of an error |
| `TokenMachine.Machine.TargetsAreExact` | compiler/parse/recovery.cpp:479-506 | an edit leads to the end of the source, or else to exactly the state in front of the next error and the one a valid token earlier, if that is behind the edit |
| `TokenMachine.Machine.TargetsStay` | compiler/parse/recovery.cpp:472-508 | the search stays within a finite set of core states |
| `InsertCases.PossibleInserts` | compiler/parse/recovery.cpp:211-249 | expanding every waiting state once gathers exactly the tokens of all states reachable over then-states, each once |
| `InsertCases.CasesAreExact` | compiler/parse/recovery.cpp:202-250 | the edits of a state are a skip, unless the source is at its end, and the insertions of the tokens of all states reachable over then-states, each once |
| `InsertCases.GenerateCases` | compiler/parse/recovery.cpp:202-250 | gathers the edits that the machine of the search tries, in their order |
| `RecoverySearch.ParseTargets` | compiler/parse/recovery.cpp:475-507 | parsing to the error, restoring and parsing again stops where the model says |
| `Frontier.InsertBestError` | compiler/parse/recovery.cpp:387-416 | inserting keeps the entries ordered and keeps exactly what no inserted entry dominates |
| `Frontier.FrontierIsExact` | compiler/parse/recovery.cpp:387-416 | an entry is in `bestErrors` exactly if it was inserted and no inserted entry is as far ahead at a lower cost |
| `Frontier.LowerBound` | compiler/parse/recovery.cpp:392-392 | finds the first entry that is not farther ahead |
| `Frontier.IsPruned` | compiler/parse/recovery.cpp:419-435 | is true exactly if, for one of the conditions, some entry ever inserted is far enough ahead and cheap enough |
| `Frontier.CheapestAhead` | compiler/parse/recovery.cpp:425-432 | the entry in front of the partition point is the cheapest of all inserted ones that are far enough ahead |
| `SearchGraph.LinkKeepsGraph` | compiler/parse/recovery.cpp:451-470 | recording an edge keeps every list of incoming edges tight, at most four long and acyclic, and all queued states in the bucket of their cost |
| `SearchGraph.LinkKeepsTies` | compiler/parse/recovery.cpp:451-470 | every way that is as cheap as its target keeps an edge, as long as the target has fewer than four |
| `SearchGraph.PopKeepsGraph` | compiler/parse/recovery.cpp:518-523 | taking a handle out of its bucket matters only if its state is expanded next |
| `SearchGraph.NextBucketKeepsGraph` | compiler/parse/recovery.cpp:510-533 | once a bucket is empty no unexpanded state is that cheap |
| `RecoverySearch.RecoveryState.Intern` | compiler/parse/recovery.cpp:282-295 | a key keeps its handle for ever, and a new key gets a new handle |
| `RecoverySearch.RecoveryState.AddRootState` | compiler/parse/recovery.cpp:443-449 | roots cost nothing and have no incoming edge |
| `RecoverySearch.RecoveryState.AddState` | compiler/parse/recovery.cpp:451-470 | keeps the search invariant and records the edge; the assertion that a state that becomes cheaper is not expanded holds |
| `RecoverySearch.RecoveryState.LinkOrDrop` | compiler/parse/recovery.cpp:455-469 | a cheaper way replaces the edges of its target and queues it again, an equally cheap one is added while there is room, and any other changes nothing; the invariant of the search is kept |
| `RecoverySearch.RecoveryState.ExpandCase` | compiler/parse/recovery.cpp:475-507 | every state an edit leads to is interned and its edge recorded |
| `RecoverySearch.RecoveryState.ExpandState` | compiler/parse/recovery.cpp:472-508 | all edits of a state are tried |
| `RecoverySearch.RecoveryState.ExpandNow` | compiler/parse/recovery.cpp:525-530 | a state that an entry of the frontier supersedes under an active condition gets no edges, and of any other all edits are tried |
| `RecoverySearch.RecoveryState.PopAndExpand` | compiler/parse/recovery.cpp:519-531 | a handle whose state was expanded or became cheaper is only dropped, and any other one is expanded or pruned |
| `RecoverySearch.RecoveryState.Grind` | compiler/parse/recovery.cpp:510-533 | terminates with all states expanded; costs of expanded states are final, and each state was fully expanded or is superseded by an entry of the frontier |
| `RecoverySearch.RecoveryState.SortBucket` | compiler/parse/recovery.cpp:511-517 | sorting a bucket permutes it, the states furthest ahead last |
| `RecoveryPaths.NoCheaperWalk` | compiler/parse/recovery.cpp:455-458 | the cost of a state is at most that of any walk to it over edges ever generated |
| `RecoveryPaths.PathCostsItsTarget` | compiler/parse/recovery.cpp:535-554 | every path over kept edges costs exactly what its target costs |
| `RecoveryPaths.PathIsWalk` | compiler/parse/recovery.cpp:535-554 | paths are walks over generated edges, hence shortest ones |
| `RecoveryPaths.PathsAreExact` | compiler/parse/recovery.cpp:535-554 | the collected sequence holds every path of kept edges, each once |
| `RecoveryPaths.PathsInOrder` | compiler/parse/recovery.cpp:545-553 | paths are listed in the order in which their edges were discovered, compared from the last edge on |
| `RecoveryPaths.CheapestWalkIsPath` | compiler/parse/recovery.cpp:535-554 | the converse of PathIsWalk: a walk as cheap as its target is a path of kept edges, unless a state on it has four of them |
| `RecoveryPaths.CollectPaths` | compiler/parse/recovery.cpp:535-554 | the recursion appends the first eight of them, in their order |
| `RecoveryPaths.ReadChain` | compiler/parse/recovery.cpp:536-540 | reads the linked list of incoming edges |
| `Recovery.BuildPath` | compiler/parse/recovery.cpp:560-583 | the replay meets the interned states, all edits can be applied, and parsing on passes the target |
| `Recovery.EdgeLeadsOn` | compiler/parse/recovery.cpp:568-577 | each edge of a path can be applied to its parent state and leads on to the next one |
| `Recovery.Recover` | compiler/parse/recovery.cpp:585-611 | reports the first eight paths to all cheapest states at the end of the source, each of which replays to the end |
| `Recovery.AddRoots` | compiler/parse/recovery.cpp:588-598 | the table holds exactly the state in front of the first error and the one a valid token earlier, if that is behind the start, both unexpanded and at no cost |
| `SearchGraph.RootKeysAreExact` | compiler/parse/recovery.cpp:590-598 | the roots are exactly the states in front of the first error of the source |
| `Recovery.WalksStartAtRoots` | compiler/parse/recovery.cpp:588-598 | the walks that reported recoveries are compared to start at every root, and nowhere else |
| `Recovery.CollectEosPaths` | compiler/parse/recovery.cpp:600-605 | collects the paths of all states of the frontier at the end of the source |
| `Recovery.EosCostIsMinimal` | compiler/parse/recovery.cpp:600-605 | a state at the end of the source in the frontier is as cheap as any other at the end |
| `Recovery.EveryCheapestIsReported` | compiler/parse/recovery.cpp:585-611 | unless more than eight paths tie or a state on the way has four incoming edges, every cheapest walk to the end of the source is reported |
| `Recovery.CheapestTarget` | compiler/parse/recovery.cpp:600-605 | the cheapest walks to the end of the source end in states of the frontier and cost what these cost |
| `Recovery.RecoveryIsCheapest` | compiler/parse/recovery.cpp:585-611 | a reported recovery costs as much as a walk to the end of the source, and no walk over generated edges costs less |
| `Recovery.ReportedUnlessUnreached` | compiler/parse/recovery.cpp:662-663 | a recovery is reported exactly if the search reached the end of the source |
| `Completion.FurthestIsDone` | compiler/parse/recovery.cpp:419-435 | the states furthest ahead are never pruned |
| `Completion.LeftOutIsSuperseded` | compiler/parse/recovery.cpp:418-435 | a finished search left out edits only of states behind a state that is further ahead and hardly more expensive, as one of the three conditions says; the strict one comes in only if more states than the limit are known |
| `Completion.SearchReachesEnd` | compiler/parse/recovery.cpp:335-340 | if every parser state can be completed by tried insertions, the search reaches the end of the source, even when only the strict condition prunes |
| `Recovery.CompletableIsReported` | compiler/parse/recovery.cpp:662-663 | if every parser state can be completed by tried insertions, the reported recoveries are not empty |
| `Replay.MergeCommutes` | compiler/parse/recovery.cpp:641-659 | an edit after skips and inserts leads to the same parser state as merging it into them, since skips and inserts commute |
| `Replay.BuildGroups` | compiler/parse/recovery.cpp:641-659 | the elements are cut exactly where a token of the source is parsed between two of them; every slice gives one group with the position and state of its first element, all its skips and all its inserted tokens in their order |
| `Replay.GroupsAreSlices` | compiler/parse/recovery.cpp:641-659 | the same of the groups that are replayed |
| `Replay.GroupPositionsIncrease` | compiler/parse/recovery.cpp:641-659 | the groups of a path lie at strictly increasing source positions, which the checks at 705-708 depend on |
| `Replay.GroupsReplay` | compiler/parse/recovery.cpp:641-659 | replaying the groups meets the state in front of each of them and ends where replaying the single edits ends |
| `ParserApi.ApplyExpand` | compiler/parse/recovery.cpp:134-144 | skips first, then inserts, and stops at the first edit that fails |
| `ParserApi.RecoveryToErrorState` | compiler/parse/api.cpp:57-63 | parsing two tokens from the state in front of a recovery ends in an error |
| `ParserApi.GroupStatesFail` | compiler/parse/api.cpp:57-63 | the states in front of all groups are ready and at most one valid token in front of an error |
| `ParserApi.FewestGroups` | compiler/parse/recovery.cpp:724-726 | the first path with the fewest groups |
| `ParserApi.RecoverAndAnalyze` | compiler/parse/recovery.cpp:661-736 | picks, of all reported recoveries, one with the fewest groups; they replay to the end of the source, and there is one if every parser state can be completed |
| `ParserApi.ParseAndRecover` | compiler/parse/api.cpp:108-128 | there are no errors exactly if the source parses, and otherwise they are the fewest that a reported recovery gives and replay to the end of the source |
| `ParserApi.ReplayErrors` | compiler/parse/api.cpp:119-126 | the asserted checks of the replay hold: each recorded state is met, each recovery applies, and the parser is done in the end |
| `SortedSets.UnionIsExact` | compiler/FlatSet.h:188-216 | a union is strictly sorted and holds the elements of the first set, and those of the second whose keys the first lacks |
| `SortedSets.IntersectionIsExact` | compiler/FlatSet.h:165-186 | an intersection is strictly sorted and holds the elements of the first set whose keys the second has |
| `SortedSets.SortedIsUnique` | compiler/FlatSet.h:98-102 | a set has exactly one sorted sequence |
| `SortedSets.UnionKeys` | compiler/FlatSet.h:165-216 | the keys are those of the mathematical union and intersection |
| `SortedSets.UnionAssociates` | compiler/FlatSet.h:28-48 | the order in which unions are formed does not matter |
| `SortedSets.UnionThenIntersection` | compiler/FlatSet.h:28-59 | intersecting a union with its first part gives that part back |
| `SortedSets.RunsAreExact` | compiler/FlatSet.h:28-59 | any sequence of unions and intersections leaves the strictly sorted sequence of the mathematical set |
| `SortedSets.MergeBackStep` | compiler/FlatSet.h:218-247 | merging from the last elements on builds the same union |
| `FlatSets.ForwardUnion` | compiler/FlatSet.h:188-216 | merges into a gap in front of an operand without overwriting an unread element, and leaves the rest of the buffer alone |
| `FlatSets.BackwardUnion` | compiler/FlatSet.h:218-247 | merges into a gap behind an operand from the end on, without overwriting an unread element |
| `FlatSets.IntersectionTo` | compiler/FlatSet.h:165-186 | writes the intersection over an operand in place |
| `FlatSets.FlatSet.UnionOf` | compiler/FlatSet.h:14-19 | the union in a new set |
| `FlatSets.FlatSet.IntersectionOf` | compiler/FlatSet.h:21-26 | the intersection in a new set |
| `FlatSets.FlatSet.UnionIntoFrontGap` | compiler/FlatSet.h:33-36 | the union in place fits, and moves the gap behind the elements |
| `FlatSets.FlatSet.UnionIntoBackGap` | compiler/FlatSet.h:42-45 | the union in place fits, and moves the gap in front of the elements, or leaves none |
| `FlatSets.FlatSet.UnionWith` | compiler/FlatSet.h:28-48 | the set becomes the union with another set or with itself, with a gap on either side, a full buffer, or a new buffer |
| `FlatSets.FlatSet.IntersectionWith` | compiler/FlatSet.h:50-59 | the set becomes the intersection, with the gap behind the elements |
| `FlatSets.FlatSet.Equals` | compiler/FlatSet.h:98-102 | two sets are equal exactly if they have the same elements |
| `FlatSets.FlatSet.LowerBound` | compiler/FlatSet.h:69-72 | binary search finds the place of a key |
| `FlatSets.FlatSet.Add` | compiler/FlatSet.h:68-92 | adding gives the set with the element exactly if the key is known, or the gap is not in front and the set grows or has a free slot behind its elements; it stores behind the buffer exactly if a new key is the largest with the gap in front, or no slot is free and the set does not grow |
| `FlatSets.FlatSet.StoreShiftedLeft` | compiler/FlatSet.h:82-85 | with the gap in front, the element at the insertion point is overwritten and the one before it is doubled; at the end of the elements the store leaves the buffer |
| `FlatSets.AddBetween` | compiler/FlatSet.h:82-85 | {1, 3, 5} with the gap in front, as a union with {3} leaves it, does not become the set with 2 |
| `FlatSets.AddLargest` | compiler/FlatSet.h:82-85 | adding 9 to that set stores behind the buffer |
| `FlatSets.AddToFull` | compiler/FlatSet.h:61-90 | {1, 3, 5} and {7} fill a buffer of four, and adding 9 then stores behind it |
| `SortedSets.OverwrittenIsWrong` | compiler/FlatSet.h:82-85 | with the gap in front, the result of adding a new key is never the set with it, whatever the gap held |
| `WordTables.PackingRoundTrip` | compiler/WordTable.h:18-34 | a word and its 32 bits determine each other |
| `WordTables.HashInRange` | compiler/WordTable.h:115-117 | the high bits of a hash are the number of a bucket |
| `WordTables.BucketIsHighBits` | compiler/WordTable.h:115-117 | the bucket is the number that the bits above the lowest ones form |
| `WordTables.DoublingSplitsBuckets` | compiler/WordTable.h:208-232 | when the buckets are doubled, the home of a word is in one of the two halves of its old home |
| `WordTables.RunWithoutWord` | compiler/WordTable.h:149-163 | a word is not in the table if the run of its hash reaches a free bucket without it |
| `WordTables.StoreKeepsTable` | compiler/WordTable.h:194-198 | storing a word in the free bucket at the end of its run keeps all words reachable, across the end of the buckets |
| `WordTables.SomeBucketFree` | compiler/WordTable.h:203-207 | with fewer words than buckets, some bucket is free, so every lookup ends |
| `WordTables.WordTable.FindWord` | compiler/WordTable.h:149-163 | finds a word exactly if it is stored, with its payload, and otherwise the free bucket at the end of its run |
| `WordTables.WordTable.InsertWord` | compiler/WordTable.h:190-201 | the table is a finite map: an unknown word is added, a known one keeps its payload |
| `WordTables.WordTable.MaybeRehash` | compiler/WordTable.h:203-207 | doubles the buckets exactly if more than three quarters are used, and keeps the map |
| `WordTables.WordTable.Rehash` | compiler/WordTable.h:208-232 | doubles the buckets and keeps the map, so lookups answer as before |
| `WordTables.WordTable.InitializeFromEmpty` | compiler/WordTable.h:233-239 | four free buckets hold the empty map |
| `WordStrings.WordStringTable.AllocateStorage` | compiler/WordStringTable.h:104-129 | stores a string behind its length, with zeros behind it, and keeps all that was stored before, also when the buffer grows |
| `WordStrings.WordStringTable.GetStorage` | compiler/WordStringTable.h:131-141 | reads back the string that was stored at an index |
| `WordStrings.PrefixKeepsString` | compiler/WordStringTable.h:104-129 | what is stored later does not change an earlier string |
| `WordStrings.RunWithoutString` | compiler/WordStringTable.h:77-90 | at the end of the run the string is not interned, and the next id makes a word that no string has |
| `WordStrings.WordStringTable.Probe` | compiler/WordStringTable.h:77-101 | follows the run to the string, to the free bucket at its end, or to a word that uses up the ids; an interned string is missed exactly if such a word is in front of it |
| `WordStrings.WordStringTable.GetInIdRange` | compiler/WordStringTable.h:73-102 | an interned string gives its word, and changes nothing, exactly if no word with its hash in front of it in its run has the last id of the range or a later one; a new string gets a new word, with the lowest id of the range above all words with its hash, exactly if there is such an id; all other words keep their strings |
| `WordStrings.OneOfTwoIsCutOff` | compiler/WordStringTable.h:91-97 | of two interned strings with one hash whose words both use up a range, one gets no word when it is looked up with that range |
| `WordStrings.LookUpInterned` | compiler/WordStringTable.h:73-102 | two strings with one hash are interned, and looking them up in a range of one id fails for one of them |
| `WordStrings.WordStringTable.Get` | compiler/WordStringTable.h:170-177 | the same with all 16 ids: an interned string gives its word exactly if no word with its hash and the last id is in front of it, and a new one gets a word exactly if no word with its hash has the last id |
| `WordStrings.WordStringTable.View` | compiler/WordStringTable.h:178-184 | a word gives back the string it was made for |
| `WordStrings.WordStringTable.FindWithHash` | compiler/WordStringTable.h:188-205 | finds the word of an interned string, and otherwise returns the fallback |
| `TreeLabels.IncrementAddsOne` | compiler/FlatTreeSet.h:12-12 | incrementing the bits of a label adds one and wraps around |
| `TreeLabels.RootHasRootLabel` | compiler/FlatTreeSet.h:8-8 | the root has the label of the empty path and depth 0 |
| `TreeLabels.ExtendIsChildLabel` | compiler/FlatTreeSet.h:11-16 | extending a label gives the label of the left or right child, down to depth 31 |
| `TreeLabels.ExtendAtDepth31` | compiler/FlatTreeSet.h:11-16 | at depth 31 the left child gets the label of its parent again |
| `TreeLabels.RightLabelAtDepth31` | compiler/FlatTreeSet.h:11-16 | at depth 31 the right child gets the label of the ancestor where its path turned left for the last time |
| `TreeLabels.LastLabel` | compiler/FlatTreeSet.h:11-16 | if the path never turned left, the right child at depth 31 gets the label of all ones |
| `TreeLabels.ChildLabelIsRightIff` | compiler/FlatTreeSet.h:8-16 | the label of a child differs from those of all nodes down to depth 31 and is in order with them, exactly if its parent is above depth 31 or its path turns right all the way |
| `TreeLabels.LeftChainRepeatsLabels` | compiler/FlatTreeSet.h:11-16 | below a chain of 32 left children both labels are those of nodes in the chain |
| `TreeLabels.DepthIsPathLength` | compiler/FlatTreeSet.h:22-22 | the trailing ones of a label give the depth of the node |
| `TreeLabels.LabelOrderIsInOrder` | compiler/FlatTreeSet.h:8-31 | the unsigned order of labels is the in-order of the nodes |
| `TreeLabels.PathOrderIsTotal` | compiler/FlatTreeSet.h:8-31 | any two different nodes are ordered, in one way only |
| `Terms.CompareIsAntisymmetric` | compiler/sema/Util.cpp:10-57 | structural comparison says equal exactly for equal constants, and swapping the operands turns it around |
| `Terms.CompareIsTransitive` | compiler/sema/Util.cpp:77-94 | the structural order is transitive, with more arguments in front |
| `Terms.FirstDifferenceDecides` | compiler/sema/Util.cpp:10-94 | a constant precedes another one by its kind, then by its value or base, then by having more arguments, then by the first argument that differs |
| `ParameterizeSets.LabelOrderIsStructural` | compiler/sema/Program.h:263-267 | comparing the labels of two interned parameterizes gives the result of comparing all they consist of; equal structure means equal id |
| `ParameterizeSets.ConstantsCompareDeeply` | compiler/sema/Util.cpp:10-57 | comparing constants by kinds, values and labels is comparing what they stand for |
| `ParameterizeSets.CompareShallow` | compiler/sema/Util.cpp:77-94 | comparing bases, numbers of arguments and arguments is the structural comparison |
| `ParameterizeSets.PlaceIsOrdered` | compiler/FlatTreeSet.h:77-93 | where the search for a constant ends is where the order puts it, seen from every node |
| `ParameterizeSets.GrowKeepsTree` | compiler/FlatTreeSet.h:89-92 | linking a new node keeps the tree ordered and labelled |
| `ParameterizeSets.UnfoldStays` | compiler/sema/Program.cpp:8-13 | interning more constants does not change what a constant stands for |
| `ParameterizeSets.ParameterizeSet.Get` | compiler/FlatTreeSet.h:71-94 | returns the one node with the same structure, or appends one unless its place is below depth 31; no node changes its handle, label or meaning |
| `ParameterizeSets.PlaceIsOnlyOne` | compiler/FlatTreeSet.h:77-93 | a constant whose search ends at a free place is unknown, and there is only one such place |
| `ParameterizeSets.InternDescending` | compiler/FlatTreeSet.h:71-94 | interning 33 constants in descending order runs into the limit of depth 31 with the last one |
| `ParameterizeSets.ParameterizeSet.AddParameterize` | compiler/sema/Program.cpp:48-52 | the constant stands for the parameterize it was made from, and is the one from before if an equal parameterize is known, also in a tree that is full |
| `Folding.ReferenceCategoryIsIdempotent` | compiler/sema/generate.cpp:1307-1322 | converting a category twice is converting it once, and never gives the category of values |
| `Folding.ReferenceCategoryFolds` | compiler/sema/generate.cpp:1180-1181 | converting a category commutes with folding |
| `Folding.ParaFolds` | compiler/sema/generate.cpp:1204-1210 | a parameterize folds argument by argument, and fails if one of them does |
| `Folding.FoldTwice` | compiler/sema/generate.cpp:1169-1235 | the substitution lemma: folding by one base and then by another is folding once by the composed arguments and base value |
| `ConstantMeanings.FoldIsSound` | compiler/sema/generate.cpp:1169-1235 | a folded constant denotes for the folding program what the constant denotes for the base value and its arguments, where a computed constant denotes the computation of the program it belongs to |
| `ConstantMeanings.FoldIsDefined` | compiler/sema/generate.cpp:1169-1235 | folding has a result exactly if all parameters have arguments, and converted ones have categories or parameters |
| `ConstantMeanings.ConversionIsSound` | compiler/sema/generate.cpp:1307-1322 | converting a category denotes the reference category of what it denoted |
| `Folding.FoldByParametersIsIdentity` | compiler/sema/Generator.h:118-127 | folding by the parameters themselves changes nothing |
| `Matching.DeductionState.ExplicitArgument` | compiler/sema/Generator.h:96-101 | fixes one argument and nothing else |
| `Matching.DeductionState.MatchParameter` | compiler/sema/generate.cpp:1035-1046 | exactly the bases that give the parameter the value solve the state afterwards |
| `Matching.DeductionState.CompareParameterize` | compiler/sema/generate.cpp:1071-1092 | exactly the bases that fold all arguments to those of the value solve the state afterwards; arguments behind a mismatch are matched too |
| `Matching.DeductionState.StaticMatch` | compiler/sema/generate.cpp:1031-1163 | sound and most general: after a match exactly those bases solve the state that solved it before and fold the pattern to the value; after a mismatch there was none; linear patterns leave nothing to check |
| `Matching.MatchImpl` | compiler/sema/generate.cpp:95-104 | a complete state without equalities gives arguments that instantiate to the value, and no others do |
| `Matching.FindImplForOpenProgram` | compiler/sema/generate.cpp:92-107 | the answer can be read as an implementation with its arguments; folding the self constant of the implementation by them gives the requested value, no other arguments do, and no other linear implementation does; if there is no answer, no linear implementation has one; two at once are an error |
| `Matching.ParameterizeRoundTrip` | compiler/sema/generate.cpp:145-151 | handle and arguments can be read off the parameterize that is made of them, which is made of no others |
| `Scanners.SkipToEndOfBlockComment` | compiler/parse/parse.cpp:529-548 | windows of 16 bytes at a stride of 15 find the first end of a comment or of the text, and never read behind the padding |
| `Scanners.SkipToEndOfBlockCommentScalar` | compiler/parse/parse.cpp:565-570 | the loop over single bytes finds the first end of a comment or of the text |
| `Scanners.SkipToEndOfLine` | compiler/parse/parse.cpp:574-587 | windows of 16 bytes find the first end of a line or of the text |
| `Scanners.SkipToEndOfLineScalar` | compiler/parse/parse.cpp:601-606 | the loop over single bytes finds the first end of a line or of the text |
| `Scanners.ClassesAreWordCharacters` | compiler/parse/parse.cpp:65-83 | the classes of the nibbles of a character have a bit in common exactly if it is a word character |
| `Scanners.HashString` | compiler/WordTable.h:40-56 | hashes block by block, with one more block of zeros behind full blocks |
| `Scanners.ScanAndHashWord` | compiler/parse/parse.cpp:138-149 | ends behind the last word character, with the hash of exactly the bytes in between |
| `Scanners.ScanAndHashLongWord` | compiler/parse/parse.cpp:122-136 | for words of 16 bytes and more, including multiples of 16, ends behind the word and hashes exactly its bytes |
| `Scanners.ScanWordScalar` | compiler/parse/parse.cpp:501-503 | the loop over single bytes ends at the same place |
| `Scanners.SkipWordCharacters` | compiler/parse/parse.cpp:90-97 | blocks of 16 bytes find the end of the word characters, and never read behind the padding |
| `Scanners.ScanWord` | compiler/parse/parse.cpp:493-505 | skipping blocks from the second character on ends where the scalar loop ends, also for words that begin with a character of another kind |
| `CallArguments.ArgumentBuffer.EmitCallToken` | compiler/parse/parse.cpp:404-414 | opens an empty frame for the token on the stack that the buffer stands for |
| `CallArguments.ArgumentBuffer.AddCallArgument` | compiler/parse/parse.cpp:344-352 | adds a name to the top frame |
| `CallArguments.ArgumentBuffer.UpdateCallArgument` | compiler/parse/parse.cpp:354-358 | changes the last name of the top frame |
| `CallArguments.ArgumentBuffer.EndCall` | compiler/parse/parse.cpp:360-366 | records the names of the top frame, in order, on the token that opened it, and restores the frame below |
| `CallArguments.ArgumentBuffer.DiscardLastToken` | compiler/parse/parse.cpp:388-390 | takes back a last token that opened no call, which leaves the frames alone |
| `CallArguments.AfterKeepsCalls` | compiler/parse/parse.cpp:3166-3236 | every action keeps one frame for each open scope of a call, and one for a call whose first argument is to come, and the token that a designator discards opened no call |
| `CallArguments.RunsKeepCalls` | compiler/parse/parse.cpp:2071-2085 | over every run, ending a call finds an open frame |
| `CallArguments.CallIsRecorded` | compiler/parse/parse.cpp:3089-3236 | from opening a call to closing it, with any nested calls, other scopes, emitted and discarded tokens and unnamed arguments in between: the token of the call gets the names of exactly its own arguments in their order, and the frames, scopes and tokens from before are back |
| `CallArguments.RunInCall` | compiler/parse/parse.cpp:2733-2765 | at every point of such a run the frame of the call holds the names added at its depth so far |
| `CallArguments.CallParser.Step` | compiler/parse/parse.cpp:344-414 | every action on the flat buffer does what it does to the stack of frames, and fails exactly if the frames then take more cells than the buffer has |
| `CallArguments.CallParser.Drive` | compiler/parse/parse.cpp:344-414 | the flat buffer driven through any run of the parser holds the frames, scopes and tokens of that run, and fails exactly if some state of the run does not fit |
| `CallArguments.EnclosingCallsStay` | compiler/parse/parse.cpp:2733-2765 | whatever happens inside a call, the calls around it keep their arguments |
| `CallArguments.DesignatorTakesTokenBack` | compiler/parse/parse.cpp:3145-3160 | a colon behind an identifier names the last argument and takes the token of the identifier back, and changes nothing else |
| `CallArguments.RunLeavesTokens` | compiler/parse/parse.cpp:388-414 | a run leaves the tokens it emits, less one for every designator |

## Left out

- Memory: allocation failure and deallocation.
- The assembly variants of the limb loops; the portable loops are modelled.
- BigInts.BigInt.WithCapacity: the limit of 2^31 - 1 limbs is a precondition of everything that allocates.
- 32 bit overflow of costs, token counts, storage offsets and argument counts.
- The grammar: `step` and `end` of the machine are arbitrary functions, and so are the then-states and the tokens of a
  single state that `InsertCases` gathers `inserts` from. Core states are drawn from a finite set that the steps do not
  leave, since the scope stack is bounded. States and scopes that a rejected token leaves half changed are not tracked,
  as a state in error is never continued.
- Positions in the source are indexes of tokens, so the requirement that a known state comes with its token index holds
  by definition.
- RecoverySearch.RecoveryState.ExpandCase: first parses to both stops behind an edit and then records them, where the
  source records one before parsing on to the other.
- Recovery.RecoveryIsCheapest: is about the edges that were generated; pruning may keep the search from generating
  cheaper ones.
- Recovery.CompletableIsReported: assumes that every parser state can be completed by insertions that are tried, which
  is a property of the grammar.
- ParserApi.RecoverAndAnalyze: does not mark recoveries as unanimous and isolated (compiler/parse/recovery.cpp:673-721),
  and errors are not formatted.
- ParserApi.ParseAndRecover: the last check is about the scope stack of the semantic context, which is not part of this
  model (compiler/parse/api.cpp:126).
- FlatSets.FlatSet.Add: gives up in front of a store behind the buffer, whose effect the source does not define.
- Continuing a lookup behind a found word (compiler/WordTable.h:164-174), and tables over fixed buffers.
- WordStrings.WordStringTable.GetInIdRange: requires a word other than the all-zero one, which marks free buckets, and
  strings shorter than 2^16 bytes, as lengths are stored in 16 bits.
- ParameterizeSets.ParameterizeSet.Get: stops where the source would add a node below depth 31, also at the one node
  whose label would be right. Programs are compared by distinct values, as their declaration locations are. The other
  interning sets work alike.
- ParameterizeSets.ConstantsCompareDeeply: remote computations, member pointers and enum values are plain constants
  here.
- Folding.FoldTwice: leaves out member pointers, enum values, open globals, open return types and errors.
- Matching.DeductionState.CompareParameterize: the value that replaces a mismatched argument is not modelled.
- Matching.DeductionState.StaticMatch: on a mismatch the value that replaces the argument, and the equality recorded
  with it, are not modelled. Member pointers, enum values, open globals, open return types and errors are left out of
  constants, and all constants live in one module, so translation between modules is the identity.
- The equalities of a match are a mathematical set here; that a sorted set keeps them is shown for its own elements.
- WordTables.AdvanceLookup: wraps around by the remainder, where the source masks bits.
- The 128 bit multiplication in the word hash; hashing is a parameter of the scanners.
- The hash of words that begin with `#`, and the keyword table.
- Which state of the grammar takes which call action; the actions themselves are modelled with all scopes around them.
