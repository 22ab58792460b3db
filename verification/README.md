# Verified model of the RTL trace and debug tools

This project models the algorithmic core of the RTL trace database, its query tools and the virtual
signal service, and proves what that core promises. `dafny verify dfyconfig.toml` checks everything.

## What is modelled

**Coordinates.** Declared dimensions, selections and flattened bits (`Coordinates`). A selection of a
multidimensional owner becomes a list of bit ranges (`OwnerSelection`), exactly the row-major ordinals of the
selected index tuples. A flattened interval is cut back into rectangular native selections
(`BoxDecomposition`), whose number depends on the number of axes only. `TraceCoordinates` turns one flat bit
into declared indices and projects a selected domain through compact port routes. `Coverage` is the canonical
form of bit sets that all of them use.

**Publication.** `Publication` is a state machine over compilers, cleanup guardians, cache readers and
crashes, with abstract open, lock, rename and unlink steps. The destination is always absent or one complete
DB, a cache hit speaks of the DB that is still there, and guardians clean up after their own compiler,
completely, and after no other.

**Ranked search.** `TopK` models the bounded heap and the shared chunk counter; every interleaving gives the
sorted prefix. `EditDistance` ties the bounded two-row algorithm to shortest edit scripts, and `Suggestions`
shows that pruning with it changes nothing, on one thread and on several. `Prefilter` proves the literal
extracted from a regular expression to be in every match, and to be as long as the analysis can make it.

**Virtual signals.** `ExpressionParser` is the recursive descent over tokens. It accepts exactly the writings
of a grammar, each with its meaning, and is inverse to a printer with minimal parentheses; `Precedence` states
how operators group, symbol by symbol. `LogicValues` and `Expressions` are the four-state evaluator,
`OperatorLaws` and `OperatorBits` the laws of its operators and what they do bit by bit, `UnknownSoundness`
what unknown bits may not change. `RawReading` says how raw waveform texts are read. `VirtualTransitions` is
the event-driven engine, equal to sampling every time point. `VirtualSignals` lifts that through nested
definitions, `StoredWidths` says when the widths stored with them are the actual ones, `SignalGraph` is the
dependency search, and `VirtualStore` the session with its cache: definitions stay acyclic and cached lists
stay equal to recomputation through every create, update and delete.

**In-place algorithms.** `EndpointDedup` (open addressing), `BitRuns` and `BitRangeMerge` (merging bit
ranges), `ReverseIndex` (counting sort with compaction), `Hierarchy` and `Partitions` (splitting the hierarchy
under a budget), `CoverageCodec` over `Decimal` and `Fields` (text envelopes).

**Clients.** `StderrPump` attributes the bytes a resident process writes to the responses of the caller, in
every interleaving of process, pump thread and caller. `Overview` cuts a time window into segments and finds
the least resolution with at most twenty of them.

The remaining modules are shared notions: `Wrappers`, `Sorting`, `Names`, `Division`, `Int32`, `Endpoints`.

## Where the code and its promises part

- Diagnostics reach the wrong response when a request has a line break: the child answers every line, the caller
  waits for one end (`StderrPump.LineBreakMixes`). Without deadlines, errors and stops this is the only way
  (`StderrPump.AttributionNeedsOneLine`).
- A second merge pass can merge more when an input already carries the merged mark
  (`BitRangeMerge.FlaggedMergesAgain`). It does exactly if a flagged and an unflagged endpoint agree in all else,
  the unflagged one is joined with a different range, and their blocks touch (`BitRangeMerge.SecondPass`).
- The decoder of `R1` envelopes takes a target id that the encoder refuses (`CoverageCodec.SentinelDecodesOnly`).
- Creating a signal under a name that some definition already mentions leaves a cached list of that
  definition wrong (`VirtualStore.ShadowingGoesStale`). With unmentioned names creation keeps the cache right.
- For a window that ends before it starts the first answer is one value at the start, and every later one, from the
  cache, is empty (`VirtualStore.VirtualSession.IterTransitions`). Slicing a computed list by its own window
  changes nothing exactly if the window is proper (`VirtualStore.FreshSliced`).
- Unknown bits: case equality, unary minus, conditionals with branches of different widths and signed branches
  can turn an unknown bit into a definite one that resolution changes (the four `...Decide(s)` lemmas). Without them no
  definite bit ever changes. Signed branches need a tree built by hand: what the parser and the bus operations
  give is never signed (`Expressions.EvaluateUnsigned`).
- An arithmetic right shift of a negative value by its width or more gives 0, not -1
  (`OperatorLaws.ArithmeticShiftDivides`). A negative value also needs a tree built by hand.
- The single-time evaluation reads an operand of unresolved width as it is, the window engine cuts it to one bit
  (`VirtualSignals.UnresolvedReadsDiffer`). They read alike exactly if every created reference whose width cannot
  be resolved has one bit (`VirtualSignals.OperandsReadAlike`).
- Redefining a signal leaves the widths stored with its dependents as they were (`StoredWidths.StaleWidthShows`).
  Widths are right exactly while each stored one is what its definition now infers
  (`StoredWidths.ConsistentIsInferred`).

## Model

| member | source | states |
|---|---|---|
| Coverage.NormalizeCoverage | standalone_trace/db/PortConnectionMapping.inc:130-140 | reversed pairs straightened, sorted and merged in place: the result is canonical and covers exactly the same bits, so it is the only canonical list that does |
| Coverage.MergeSorted | standalone_trace/db/PortConnectionMapping.inc:133-139 | the in-place compaction of a sorted list gives gaps between neighbours and keeps the covered bits |
| Coverage.IntersectCoverage | standalone_trace/db/GraphDb.cc:4550-4557 | the result is canonical and covers a bit exactly when both arguments do |
| Coverage.CanonicalUnique | standalone_trace/db/PortConnectionMapping.inc:130-140 | two canonical lists that cover the same bits are equal |
| Coordinates.OffsetIndex | standalone_trace/db/PortConnectionMapping.inc:8-10 | the offset of a declared index and the index at an offset are inverse, for ascending and descending axes |
| Coordinates.OffsetsFromRight | standalone_trace/db/PortConnectionMapping.inc:8-10 | the right end of a dimension is at 0 and positions count up toward its left end, in either direction of writing |
| Coordinates.OrdinalDigits | standalone_trace/db/GraphDb.cc:4694-4695 | reading a row-major ordinal as a tuple and back gives the ordinal |
| Coordinates.DigitsOrdinal | standalone_trace/query/TraceQuery.cc:720-727 | every in-range tuple is the tuple of its own row-major ordinal |
| Coordinates.OrdinalMoves | standalone_trace/db/GraphDb.cc:4483-4493 | moving along one axis moves the ordinal by the size of all later axes, along the last one by one |
| Coordinates.SelectsSplit | standalone_trace/db/GraphDb.cc:4495-4525 | the meaning of a selection peels off one outermost axis: position times stride plus a selected inner ordinal |
| Coordinates.SelectsInterval | standalone_trace/db/GraphDb.cc:4506-4517 | one cut axis followed by whole axes selects one interval |
| OwnerSelection.AxisStrides | standalone_trace/db/GraphDb.cc:4483-4493 | row-major strides and size, or nothing exactly when an axis is not addressable or the size passes 32 bits |
| OwnerSelection.TrailingWhole | standalone_trace/db/GraphDb.cc:4506-4512 | whether all later selected axes are whole, in either direction of writing |
| OwnerSelection.Spread | standalone_trace/db/GraphDb.cc:4519-4523 | every range moved by every selected multiple of the stride, and nothing else |
| OwnerSelection.PrefixesStep | standalone_trace/db/GraphDb.cc:4518-4524 | expanding one more axis loses and invents no selected ordinal |
| OwnerSelection.ExpandAxis | standalone_trace/db/GraphDb.cc:4518-4524 | either the axis is expanded exactly or the selection needs more than 256 pieces |
| OwnerSelection.TakeTrailing | standalone_trace/db/GraphDb.cc:4513-4517 | widening the points over whole trailing axes gives exactly the selected ordinals |
| OwnerSelection.TakeUnselected | standalone_trace/db/GraphDb.cc:4502-4505 | widening the points over missing trailing axes gives exactly the selected ordinals |
| OwnerSelection.BoxRanges | standalone_trace/db/GraphDb.cc:4494-4525 | intervals covering exactly the selected row-major ordinals; nothing exactly when an index is out of bounds or the piece limit is passed |
| OwnerSelection.MemberRanges | standalone_trace/db/GraphDb.cc:4526-4534 | the ranges moved by the member offset, or nothing exactly when a bit leaves 32 bits |
| OwnerSelection.PortOwnerSelection | standalone_trace/db/GraphDb.cc:4477-4536 | coverage is given exactly for selectable requests; it is canonical and is precisely the set of row-major ordinals of the selected tuples, moved by the member offset |
| BoxDecomposition.BoxesTile | standalone_trace/db/GraphDb.cc:4683-4709 | the boxes of [low, high] are consecutive ascending intervals from low to high |
| BoxDecomposition.BoxesExact | standalone_trace/db/GraphDb.cc:4693-4706 | every box, read as a selection, selects exactly the ordinals of its interval and needs one piece |
| BoxDecomposition.BoxesCount | standalone_trace/db/GraphDb.cc:4679-4706 | at most 4n-5 boxes for n >= 2 axes and one for n = 1, whatever the axis sizes |
| BoxDecomposition.BoxesCountTight | standalone_trace/db/GraphDb.cc:4699-4705 | an interval that needs all the boxes the bound allows |
| BoxDecomposition.OneSidedCount | standalone_trace/db/GraphDb.cc:4699-4705 | an interval touching either end of the owner needs at most two boxes per further axis |
| BoxDecomposition.ReadBack | standalone_trace/db/GraphDb.cc:4477-4536 | reading an emitted box through the owner selection gives back exactly its interval |
| BoxDecomposition.Emitter.Emit | standalone_trace/db/GraphDb.cc:4683-4706 | appends exactly the boxes of the interval behind the current prefix, restores the prefix, and fails exactly past the cap |
| BoxDecomposition.Emitter.Append | standalone_trace/db/GraphDb.cc:4685-4692 | one full selection is added, or the emission fails at the cap |
| BoxDecomposition.Emitter.Piece | standalone_trace/db/GraphDb.cc:4696-4698 | pushes one index range, emits the inner interval, pops |
| BoxDecomposition.Decompose | standalone_trace/db/GraphDb.cc:4669-4713 | the selections of all boxes of all intervals, or nothing exactly when an axis is not fixed, the size is too large, an interval lies outside, or the cap is passed |
| BoxDecomposition.DecomposeConserves | standalone_trace/db/GraphDb.cc:4655-4712 | the emitted selections together select exactly the bits of the coverage |
| TraceCoordinates.FlatRewrite | standalone_trace/query/TraceQuery.cc:714-733 | indices are given exactly for one in-range bit of fixed packed axes, and selecting those indices selects that bit alone |
| TraceCoordinates.PointSelects | standalone_trace/query/TraceQuery.cc:720-727 | a selection of one tuple selects its ordinal and nothing else |
| TraceCoordinates.ReachesAffine | standalone_trace/query/TraceQuery.cc:324-331 | a target bit is reached exactly from owner bits of a route at the same distance from its start |
| TraceCoordinates.ProjectRoute | standalone_trace/query/TraceQuery.cc:323-332 | one route is clipped against every selected range and collected under its target; the cap counts overlapping pairs |
| TraceCoordinates.ProjectRoutes | standalone_trace/query/TraceQuery.cc:321-333 | each target collects exactly the bits reached from the selected domain; failure exactly past 512 overlapping pairs |
| TraceCoordinates.MergeTargets | standalone_trace/query/TraceQuery.cc:334-341 | every target domain becomes canonical with the same bits |
| Publication.AcquireKeeps | standalone_trace/db/GraphPublication.h:30-60 | taking the exclusive lock is possible only without another holder and keeps the invariant |
| Publication.PrepareLocal | standalone_trace/db/GraphPublication.h:119-140 | the steps of preparation touch only the lock holder and its staging names |
| Publication.PublishLocal | standalone_trace/db/GraphPublication.h:148-173 | invalidate, rename DB, rename metadata, disarm or fail to: each step keeps destination and metadata consistent |
| Publication.GuardianKeeps | standalone_trace/db/GraphPublication.h:212-270 | disarm, sweep after end of file, or death of a guardian keeps the invariant |
| Publication.ReaderKeeps | standalone_trace/db/GraphPublication.h:279-307 | a cache decision under the shared lock knows the DB that is still in place |
| Publication.StepKeeps | standalone_trace/db/GraphPublication.h:119-307 | every step of every process, crashes included, keeps the invariant |
| Publication.RunInv | standalone_trace/db/GraphPublication.h:112-307 | the invariant holds in every state of every interleaving |
| Publication.DestinationComplete | standalone_trace/db/GraphPublication.h:163-168 | the destination is always absent or one complete DB |
| Publication.CacheHitSound | standalone_trace/db/GraphPublication.h:279-307 | a reader that decides on a hit for fingerprint f holds the lock over a DB published with f |
| Publication.PublishedHits | standalone_trace/db/GraphPublication.h:286-306 | while metadata is in place a reader hits exactly when it asks for the published fingerprint |
| Publication.GuardianRemovesOwn | standalone_trace/db/GraphPublication.h:245-252 | a guardian only ever removes staging files of its own compiler, because it shares that lock until it exits |
| Publication.SweepClears | standalone_trace/db/GraphPublication.h:245-252 | a finished sweep of a guardian or of the abort path leaves no staging file, and none of its compiler exists in any later state of the run |
| Publication.ReleasedLeavesNothing | standalone_trace/db/GraphPublication.h:112-173 | a compiler that released its lock, after success or abort, has left no staging file behind |
| Publication.PlacesOwn | standalone_trace/db/GraphPublication.h:164-168 | a rename moves only a complete file of the compiler that performs it |
| EditDistance.DistLeast | standalone_trace/db/GraphDb.cc:5145-5158 | no sequence of single-character edits is shorter than the recursive distance |
| EditDistance.DistReached | standalone_trace/db/GraphDb.cc:5145-5158 | some sequence of single-character edits has exactly that length |
| EditDistance.DistLengths | standalone_trace/db/GraphDb.cc:5164-5165 | the distance is at least the difference of the lengths |
| EditDistance.RowBound | standalone_trace/db/GraphDb.cc:5178-5179 | once a whole row exceeds the bound the final distance does |
| EditDistance.FillRow | standalone_trace/db/GraphDb.cc:5171-5177 | the next row of distances and its least entry |
| EditDistance.BoundedEditDistance | standalone_trace/db/GraphDb.cc:5162-5183 | the exact distance when it is within the bound, otherwise some value past the bound |
| TopK.TopKCollector.Push | standalone_trace/db/ParallelTopK.h:40-50 | the heap keeps the limit least of what it held and the new item |
| TopK.TopKCollector.Accepts | standalone_trace/db/ParallelTopK.h:32-35 | true exactly if the item would be kept, for a limit of 0 too |
| TopK.TopKCollector.FrontGreatest | standalone_trace/db/ParallelTopK.h:37-38 | the front item is a greatest one |
| TopK.PushHeap | standalone_trace/db/ParallelTopK.h:43-44 | what a heap push guarantees: with the last item joined to the heap before it, all items rearranged are a heap |
| TopK.PopHeap | standalone_trace/db/ParallelTopK.h:46 | what a heap pop guarantees: the front item goes to the back and the rest is a heap again |
| TopK.PushLeast | standalone_trace/db/ParallelTopK.h:40-50 | keeping the k least items one push at a time is keeping the k least of all items |
| TopK.ClaimKeeps | standalone_trace/db/ParallelTopK.h:87-90 | claiming a chunk neither loses nor duplicates an index |
| TopK.ScanKeeps | standalone_trace/db/ParallelTopK.h:90 | scanning an index moves it from pending to pushed |
| TopK.RunInv | standalone_trace/db/ParallelTopK.h:81-110 | in every interleaving, as long as nothing has thrown, pushed, pending and unclaimed items make up the whole job |
| TopK.FirstErrorKept | standalone_trace/db/ParallelTopK.h:92-96 | the first throw of a run is the one kept, whatever throws after it |
| TopK.LeastOfUnion | standalone_trace/db/ParallelTopK.h:112-118 | the k least of the merged heaps are the k least of everything pushed |
| TopK.LeastIsPrefix | standalone_trace/db/ParallelTopK.h:117-118 | a sorted list of the k least items is the prefix of everything sorted |
| TopK.ParallelTopK | standalone_trace/db/ParallelTopK.h:65-120 | for any number of started workers and any interleaving the result is: score everything, sort, keep the first k; it is an error exactly if some scan throws, and then the first |
| Suggestions.ScanName | standalone_trace/db/GraphDb.cc:5400-5403 | one name of the pruned scan: past the distance of the worst kept name nothing is pushed |
| Suggestions.PruningIsExact | standalone_trace/db/GraphDb.cc:5400-5403 | pruning by the bounded distance leaves the collector exactly as pushing the exact score would |
| Suggestions.ScanChunk | standalone_trace/db/GraphDb.cc:5397-5405 | after a chunk the collector holds the least of its content and the exact scores of the chunk |
| Suggestions.TopSuggestions | standalone_trace/db/GraphDb.cc:5382-5410 | the scan on one thread returns the names of the fully scored, sorted and truncated list |
| Suggestions.PrunedIsScan | standalone_trace/db/GraphDb.cc:5396-5405 | a pruned step of any worker is a step of the scan that pushes every exact score |
| Suggestions.ParallelSuggestions | standalone_trace/db/GraphDb.cc:5382-5410 | the pruned scan on any number of workers, in any interleaving, gives the names of the fully scored, sorted and truncated list |
| Suggestions.TopIsNearest | standalone_trace/db/GraphDb.cc:5382-5410 | without scores or sorting: as many names as asked for, nearest first and by name when equally near, and no name left out is nearer than one given |
| Suggestions.ScoredStrictTotal | standalone_trace/db/GraphDb.cc:5389-5392 | distance, then name, is a strict total order |
| Names.NameStrictTotal | standalone_trace/query/FindQuery.cc:139 | names are strictly and totally ordered character by character |
| Names.LexFirstDifference | standalone_trace/query/FindQuery.cc:139 | names are ordered by the first character in which they differ, and a proper prefix comes first |
| LogicValues.UintOfNat | agent_debug_automation/expression_evaluator.py:126-129 | the number of the low bits of n is n modulo the width |
| LogicValues.NatOfUint | agent_debug_automation/expression_evaluator.py:126-129 | a definite value is determined by its number and its width |
| LogicValues.PopCountOnes | agent_debug_automation/expression_evaluator.py:274-325 | the ones of a number in binary are the one bits of the value |
| LogicValues.AllOnes | agent_debug_automation/expression_evaluator.py:274-325 | a definite value is all ones exactly if its number is the largest of its width |
| LogicValues.ReductionIsFold | agent_debug_automation/expression_evaluator.py:274-325 | each reduction, by bit kinds or by the integer fast path, equals folding the four-state table from its identity element |
| OperatorLaws.SubtractThenAdd | agent_debug_automation/expression_evaluator.py:449-462 | subtracting and adding back gives the value, wrap-around included |
| OperatorLaws.DivideRecombines | agent_debug_automation/expression_evaluator.py:463-472 | quotient times divisor plus remainder is the dividend |
| OperatorLaws.ShiftLeftScales | agent_debug_automation/expression_evaluator.py:419-436 | left shifts multiply modulo the width, for amounts past the width too |
| OperatorLaws.ShiftRightDivides | agent_debug_automation/expression_evaluator.py:427-433 | logical right shifts divide, for amounts past the width too |
| OperatorLaws.ArithmeticShiftDivides | agent_debug_automation/expression_evaluator.py:427-445 | an arithmetic right shift of a signed value divides rounding down, exactly if the amount is below the width or the value is not negative |
| OperatorLaws.DeMorgan | agent_debug_automation/expression_evaluator.py:223-258 | the law of De Morgan on four-state values, both ways round |
| OperatorLaws.SliceOfConcat | agent_debug_automation/expression_evaluator.py:503-516 | slices of a concatenation give the operands back |
| OperatorLaws.SliceOfReverse | agent_debug_automation/expression_evaluator.py:511-521 | a slice of the reversed value is the reversed slice from the other end |
| OperatorLaws.Trichotomy | agent_debug_automation/expression_evaluator.py:376-408 | on definite values exactly one of less, equal and greater holds and the other comparisons follow |
| OperatorLaws.EqualIsSameBits | agent_debug_automation/expression_evaluator.py:379-397 | definite unsigned values of one width are equal exactly if their bits are |
| OperatorBits.ComparesBits | agent_debug_automation/expression_evaluator.py:376-408 | definite values compare from the top, each extended past the wider one by its own rule: below if at the first difference it has 0 and the other 1, the sign bit counted the other way |
| OperatorBits.BelowUnsigned | agent_debug_automation/expression_evaluator.py:391-403 | of unsigned values: the first difference from the top after zeros are put above the narrower one |
| OperatorBits.BelowSigned | agent_debug_automation/expression_evaluator.py:388-390 | of signed values of one width: the sign bits first, then the rest from the top |
| OperatorBits.ComparesUnknown | agent_debug_automation/expression_evaluator.py:378-385 | case equality looks at bits and width only; every other comparison is x exactly if a value is unknown |
| OperatorBits.AddsBits | agent_debug_automation/expression_evaluator.py:449-460 | a sum is the wider operand wide and each bit comes from adding with carry |
| OperatorBits.ArithmeticUnknown | agent_debug_automation/expression_evaluator.py:449-479 | a result is unknown exactly if an operand is or a divisor is zero |
| OperatorBits.NegationCancels | agent_debug_automation/expression_evaluator.py:578-580 | adding the negation of a definite value gives zero |
| OperatorBits.MultipliesBits | agent_debug_automation/expression_evaluator.py:463-464 | multiplication by shifts and sums: twice the product with half of the right operand, and the left operand once more if that is odd |
| OperatorBits.DividesExactly | agent_debug_automation/expression_evaluator.py:465-472 | as numbers, quotient times divisor plus remainder is the dividend, and the remainder is below the divisor |
| OperatorBits.TimesZero | agent_debug_automation/expression_evaluator.py:463-464 | times zero is zero |
| OperatorBits.PowersMultiply | agent_debug_automation/expression_evaluator.py:473-478 | to the power of zero is one, and one power more is one multiplication more |
| OperatorBits.UnsignedShift | agent_debug_automation/expression_evaluator.py:438-445 | an arithmetic right shift of an unsigned value is a logical one |
| OperatorBits.Tables | agent_debug_automation/expression_evaluator.py:223-248 | the tables of one bit: 0 decides an and, 1 decides an or, z counts as x |
| OperatorBits.LogicalTables | agent_debug_automation/expression_evaluator.py:356-373 | logical operators are the four-state tables on whether their operands are not zero |
| OperatorBits.Chooses | agent_debug_automation/expression_evaluator.py:482-500 | a true condition chooses the first branch, a false one the second, an unknown one the bits on which both agree |
| OperatorBits.GatesBits | agent_debug_automation/expression_evaluator.py:328-353 | a bitwise operator is as wide as the wider operand and applies its table to each pair of bits, aligned at the low end |
| OperatorBits.SlicesBits | agent_debug_automation/expression_evaluator.py:511-516 | a slice has the bits msb down to lsb, x outside the value; a reversed slice is one x |
| OperatorBits.MirrorsAndInverts | agent_debug_automation/expression_evaluator.py:519-521 | reversal mirrors the bits, complement inverts each of them |
| OperatorBits.ConcatBits | agent_debug_automation/expression_evaluator.py:503-508 | a concatenation is its first operand in the high bits, then the others in order |
| Expressions.CollectRefs | agent_debug_automation/expression_parser.py:547-578 | the references of an expression once each, all of them and no other |
| Expressions.EvaluateAgree | agent_debug_automation/expression_evaluator.py:528-608 | the value depends on the referenced signals only |
| Expressions.EvaluateUnsigned | agent_debug_automation/expression_evaluator.py:528-608 | unsigned operands and literals never give a signed value |
| UnknownSoundness.GateMonotone | agent_debug_automation/expression_evaluator.py:223-248 | resolving a bit never changes a definite entry of the gate tables |
| UnknownSoundness.UnaryRefines | agent_debug_automation/expression_evaluator.py:255-325 | negation, logical not and reductions keep definite bits under resolution |
| UnknownSoundness.BinaryRefines | agent_debug_automation/expression_evaluator.py:328-479 | every binary operator but case equality keeps definite bits under resolution |
| UnknownSoundness.TernaryRefines | agent_debug_automation/expression_evaluator.py:482-500 | a conditional with branches of one width keeps definite bits, merged or chosen |
| UnknownSoundness.EvaluateWidth | agent_debug_automation/expression_evaluator.py:528-608 | with branches of one width the width of the value is the static width of the expression |
| UnknownSoundness.DefiniteBitsStay | agent_debug_automation/expression_evaluator.py:528-608 | for every sound expression each definite bit of the value stays the same however unknown operand bits are resolved |
| UnknownSoundness.CaseEqualityDecides | agent_debug_automation/expression_evaluator.py:376-408 | case equality on an unknown bit gives a definite bit that resolution changes |
| UnknownSoundness.NegateDecides | agent_debug_automation/expression_evaluator.py:528-608 | unary minus on an unknown bit gives a definite bit that resolution changes |
| UnknownSoundness.UnequalBranchesDecide | agent_debug_automation/expression_evaluator.py:482-500 | branches of different widths make the width depend on the condition |
| UnknownSoundness.SignedBranchesDecide | agent_debug_automation/expression_evaluator.py:482-500 | an expression with a signed branch, of which a definite bit depends on the condition |
| ExpressionParser.ParsesParens | agent_debug_automation/expression_parser.py:480-501 | in parentheses every writing parses as a primary |
| ExpressionParser.ParsesUnary | agent_debug_automation/expression_parser.py:459-478 | prefix operators and unary plus nest |
| ExpressionParser.ParsesPower | agent_debug_automation/expression_parser.py:450-457 | power is right associative |
| ExpressionParser.ParsesLevel | agent_debug_automation/expression_parser.py:357-448 | at its own level a writing becomes the left operand of what follows |
| ExpressionParser.ParsesConditional | agent_debug_automation/expression_parser.py:330-355 | conditionals nest in either branch |
| ExpressionParser.ParsesInner | agent_debug_automation/expression_parser.py:342-355 | a true branch parses to its meaning, an assignment to its value |
| ExpressionParser.ParseInvertsPrint | agent_debug_automation/expression_parser.py:321-501 | parsing the minimally parenthesised tokens of any expression returns that expression |
| ExpressionParser.WroteLevel | agent_debug_automation/expression_parser.py:357-448 | whatever a binary level accepts is a writing of that level, of the tokens read |
| ExpressionParser.WroteTernary | agent_debug_automation/expression_parser.py:330-340 | whatever the top rule accepts is a writing, of the tokens read, with that meaning |
| ExpressionParser.AcceptsWritings | agent_debug_automation/expression_parser.py:321-501 | a token list is accepted exactly if it is a writing, redundant parentheses, unary pluses and assignments in true branches included, and the result is its meaning |
| ExpressionParser.Unambiguous | agent_debug_automation/expression_parser.py:321-501 | two writings with the same tokens mean the same |
| Precedence.TighterInside | agent_debug_automation/expression_parser.py:357-457 | for every two operators of different levels, written out, the tighter one is inside whichever comes first |
| Precedence.OneLevelGroups | agent_debug_automation/expression_parser.py:357-457 | operators of one level group to the left, powers to the right |
| Precedence.PrefixFirst | agent_debug_automation/expression_parser.py:459-470 | every prefix operator takes its operand before any infix operator does |
| Precedence.PlusDropped | agent_debug_automation/expression_parser.py:474-477 | a unary plus is dropped |
| Precedence.ConditionInside | agent_debug_automation/expression_parser.py:330-340 | a conditional is looser than any operator in its condition |
| Precedence.BranchInside | agent_debug_automation/expression_parser.py:330-340 | and looser than any operator in its last branch |
| Precedence.BranchNests | agent_debug_automation/expression_parser.py:330-340 | conditionals nest in the last branch |
| Precedence.AssignmentIsValue | agent_debug_automation/expression_parser.py:342-355 | in a true branch an assignment stands for its value |
| ExpressionParser.Parser.ParseAllTokens | agent_debug_automation/expression_parser.py:321-328 | the descent over any closed token list ends, never reads past its end, and gives what the grammar gives, whose grouping of operators Precedence states symbol by symbol |
| ExpressionParser.Parser.Ternary | agent_debug_automation/expression_parser.py:330-340 | follows the grammar: condition, branches |
| ExpressionParser.Parser.Inner | agent_debug_automation/expression_parser.py:342-355 | follows the grammar for the true branch, where an assignment stands for its value |
| ExpressionParser.Parser.BinaryLevel | agent_debug_automation/expression_parser.py:357-448 | follows the left-associative grammar of the ten binary levels |
| ExpressionParser.Parser.PowerLevel | agent_debug_automation/expression_parser.py:450-457 | follows the right-associative grammar of power |
| ExpressionParser.Parser.UnaryLevel | agent_debug_automation/expression_parser.py:459-478 | follows the grammar of prefix operators |
| ExpressionParser.Parser.Primary | agent_debug_automation/expression_parser.py:480-501 | follows the grammar of literals, references and parentheses |
| ExpressionParser.Parser.Advance | agent_debug_automation/expression_parser.py:305-308 | the cursor moves on but never past the end-of-input token |
| VirtualTransitions.IterVirtualTransitions | agent_debug_automation/expression_evaluator.py:615-696 | for sorted operand histories the event-driven result is exactly what sampling every time of the window gives |
| VirtualTransitions.CollectEvents | agent_debug_automation/expression_evaluator.py:669-674 | the pending times are exactly the operand event times in the window, least first |
| VirtualTransitions.Drain | agent_debug_automation/expression_evaluator.py:684-687 | all events at the least pending time are taken together |
| VirtualTransitions.ChangesShape | agent_debug_automation/expression_evaluator.py:615-696 | times start at the window start, strictly increase and stay inside, and neighbouring values differ |
| VirtualTransitions.ChangesValue | agent_debug_automation/expression_evaluator.py:615-696 | at every time of the window the last yielded value is the sampled one |
| VirtualTransitions.EnvBetween | agent_debug_automation/expression_evaluator.py:644-664 | operand values do not change between operand events |
| RawReading.HintedReads | agent_debug_automation/expression_evaluator.py:655-664 | a raw text is read with the low ends aligned: its bits and 0 above them, only the low bits of a longer one; a lone x or z fills the width |
| RawReading.HintedNumber | agent_debug_automation/expression_evaluator.py:655-664 | a definite text keeps its number modulo the width, and the number itself if it is no wider |
| RawReading.OperandShows | agent_debug_automation/expression_evaluator.py:644-664 | each operand the engine evaluates over shows the last event of its history at or before the time, and x before the first |
| VirtualSignals.FetchedValue | agent_debug_automation/virtual_signals.py:881-940 | inside the window the fetched history, seeded one time before it, reads like the full waveform |
| VirtualSignals.FreshIsMeaning | agent_debug_automation/virtual_signals.py:754-879 | through nested virtual signals the window computation is dense sampling of the pointwise meaning |
| VirtualSignals.OperandMeans | agent_debug_automation/virtual_signals.py:853-877 | each resolved operand reads as the value of its reference at every time of the window |
| VirtualSignals.EvalAtTimeAgrees | agent_debug_automation/virtual_signals.py:690-709 | the single-time evaluation is the pointwise meaning when every created reference of unresolved width has one bit |
| VirtualSignals.OperandsReadAlike | agent_debug_automation/virtual_signals.py:690-709 | the single-time evaluation reads its operands as the window engine does exactly if every created reference of unresolved width has one bit |
| VirtualSignals.UnresolvedReadsDiffer | agent_debug_automation/virtual_signals.py:702-709 | a definition over an absent signal has no width; its alias has two bits at one time and one bit in a window |
| VirtualSignals.WidthsAre | agent_debug_automation/virtual_signals.py:307-347 | the widths handed to the engine are those of exactly the references whose width resolves: stored, inferred or declared |
| VirtualSignals.DenoteInlines | agent_debug_automation/virtual_signals.py:820-879 | where every signal it rests on is read at its actual width, the meaning is the value of the fully inlined expression over the real signals |
| VirtualSignals.FreshFrame | agent_debug_automation/virtual_signals.py:820-879 | a recomputation depends only on the definitions reachable from the signal |
| RawReading.AliasShows | agent_debug_automation/virtual_signals.py:754-940 | at every time of the window the transitions of an alias of a real signal show the bits and the number of its last event, and x before any |
| StoredWidths.InferredIsActual | agent_debug_automation/virtual_signals.py:349-370 | the width inferred over zeros is the width of the value at every time |
| StoredWidths.ConsistentIsInferred | agent_debug_automation/virtual_signals.py:307-370 | the signals of a closed set are read at their actual widths exactly if each was stored with the width its definition now infers, or with none |
| StoredWidths.StaleWidthShows | agent_debug_automation/virtual_signals.py:633-649 | after a redefinition that changes a width, a dependent keeps its old one and reads differently from the inlined definition |
| SignalGraph.TopologicalSort.Visit | agent_debug_automation/virtual_signals.py:167-195 | on success the name and all it reaches are visited and layered; on failure the trail is a dependency chain that is too long or returns to itself |
| SignalGraph.TopologicalSort.LayerAbove | agent_debug_automation/virtual_signals.py:186-192 | one above the highest layer of the dependencies |
| SignalGraph.TopologicalSort.Place | agent_debug_automation/virtual_signals.py:183-195 | placing a name keeps the layers closed, disjoint and leaves first |
| SignalGraph.LayersFor | agent_debug_automation/virtual_signals.py:154-198 | layers in which every created dependency is in a strictly earlier layer, or a witnessed reason why there are none |
| SignalGraph.CircularHasNoRank | agent_debug_automation/virtual_signals.py:170-171 | a reported cycle is real: no ranking of the definitions exists |
| SignalGraph.ToInvalidate | agent_debug_automation/virtual_signals.py:102-124 | exactly the least set that holds the signal and is closed under dependents |
| SignalGraph.DependentSignals | agent_debug_automation/virtual_signals.py:127-142 | that same set without the signal itself |
| SignalGraph.NoDependents | agent_debug_automation/virtual_signals.py:661-666 | there are no dependents exactly if no other definition mentions the signal |
| VirtualStore.CoherentFrame | agent_debug_automation/virtual_signals.py:102-124 | cached lists of signals whose reachable definitions did not change stay right |
| VirtualStore.RankedUpdate | agent_debug_automation/virtual_signals.py:633-643 | checking from the redefined signal alone keeps the whole store acyclic |
| VirtualStore.RankedWith | agent_debug_automation/virtual_signals.py:287-293 | checking from the new signals alone keeps the whole store acyclic |
| VirtualStore.Check | agent_debug_automation/virtual_signals.py:154-198 | success ranks everything the signal rests on; a cycle report means the store is cyclic; a depth report comes with a chain past the limit |
| VirtualStore.FreshSliced | agent_debug_automation/virtual_signals.py:791-794 | slicing a recomputed list by its own window changes nothing exactly if the window does not end before it starts |
| VirtualStore.CachedReadsAsMeaning | agent_debug_automation/virtual_signals.py:754-818 | at every time of its window a cached list reads as the pointwise meaning of the signal |
| VirtualStore.ShadowingGoesStale | agent_debug_automation/virtual_signals.py:273-294 | why creation must not shadow a mentioned name: with an alias of a waveform signal cached at one time, storing a constant of another value under that name leaves the cache wrong |
| VirtualStore.VirtualSession.constructor | agent_debug_automation/virtual_signals.py:25-29 | a new session is acyclic with an empty, right cache |
| VirtualStore.VirtualSession.CachePut | agent_debug_automation/virtual_signals.py:67-90 | the list is stored, a full cache drops exactly its oldest entry, insertion order and the limit of 256 are kept |
| VirtualStore.VirtualSession.CacheInvalidate | agent_debug_automation/virtual_signals.py:93-99 | exactly the entries of one signal are dropped |
| VirtualStore.VirtualSession.CacheInvalidateAll | agent_debug_automation/virtual_signals.py:102-124 | exactly the entries of the signal and of everything that rests on it are dropped |
| VirtualStore.VirtualSession.StoreEntries | agent_debug_automation/virtual_signals.py:273-294 | all or none; the store stays acyclic; every cached list stays right if no definition mentions a new name; rejections are justified |
| VirtualStore.VirtualSession.Update | agent_debug_automation/virtual_signals.py:597-649 | the new definition or an error with nothing changed; the store stays acyclic and every cached list right |
| VirtualStore.VirtualSession.Delete | agent_debug_automation/virtual_signals.py:651-673 | the signal is removed exactly if it exists and no other definition mentions it; every cached list stays right |
| VirtualStore.VirtualSession.IterTransitions | agent_debug_automation/virtual_signals.py:754-818 | with a right cache the answer for a proper window is the computation from scratch, or the truncation error exactly when some real signal below has too many events; a window that ends before it starts gives one value at its start the first time and nothing from the cache; the cache stays right |
| VirtualStore.VirtualSession.ResolveDeps | agent_debug_automation/virtual_signals.py:820-879 | the operand histories are the recomputed or fetched ones |
| VirtualStore.VirtualSession.EvalLogicAtTime | agent_debug_automation/virtual_signals.py:690-709 | the single-time value; it is the pointwise meaning when every created reference of unresolved width has one bit |
| Overview.VirtualWindowTransitions | agent_debug_automation/tools.py:736-761 | the transitions are strictly increasing in the window, happen exactly where the value changes, and read as the signal at every time |
| Overview.EstimatedSegmentCount | agent_debug_automation/tools.py:897-937 | the estimator gives exactly the number of segments the builder builds |
| Overview.BurstAddsOne | agent_debug_automation/tools.py:904-927 | a run of close transitions counts as one segment whatever its length |
| Overview.CoarserIsFewer | agent_debug_automation/tools.py:939-951 | a coarser resolution never gives more segments |
| Overview.SpanIsCoarse | agent_debug_automation/tools.py:939-951 | at the resolution of the whole span at most three segments are left, so the search has an answer |
| Overview.ChooseAutoResolution | agent_debug_automation/tools.py:887-951 | the least resolution that gives at most 20 segments |
| Overview.BuildOverviewSegments | agent_debug_automation/tools.py:954-1053 | segments tile the window; a stable one has the waveform value at each of its times and is never between close transitions; a flipping one is a maximal burst with its counts; their number is the estimate |
| Overview.FlippingSegment | agent_debug_automation/tools.py:995-1021 | the segment of a maximal burst, with its transitions and distinct values |
| Overview.FlippingIsBusy | agent_debug_automation/tools.py:972-1021 | every time of a flipping segment lies between two close transitions |
| Overview.SegmentsByDistance | agent_debug_automation/tools.py:972-1053 | around a time of a stable segment consecutive transitions are at least the resolution apart, around a time of a flipping one they are closer |
| Overview.TiledCovers | agent_debug_automation/tools.py:954-1053 | every time of the window lies in exactly one segment |
| Overview.AutoOverview | agent_debug_automation/tools.py:1535-1558 | the automatic overview has at most 20 segments, tiles the window, and its stable values are those of the signal |
| Prefilter.SimpleParses | standalone_trace/query/FindQuery.cc:72-76 | simple patterns are exactly those the item grammar accepts, but for a leading quantifier |
| Prefilter.PlainSearch | standalone_trace/query/FindQuery.cc:145-149 | a pattern of ordinary characters matches exactly the names that contain it |
| Prefilter.RepeatedChar | standalone_trace/query/FindQuery.cc:104-122 | a quantified character matches any number, at least one, or at most one of it |
| Prefilter.ItemsInTurn | standalone_trace/query/FindQuery.cc:72-76 | items one after the other match text one after the other |
| Prefilter.AnchoredSearch | standalone_trace/query/FindQuery.cc:145-149 | between the two anchors an ordinary text matches itself only |
| Prefilter.RunIsContained | standalone_trace/query/FindQuery.cc:72-76 | every match contains every run of required characters |
| Prefilter.ReadStacked | standalone_trace/query/FindQuery.cc:104-113 | a literal under two quantifiers, or followed by a brace, justifies giving up |
| Prefilter.ReadLiteralAt | standalone_trace/query/FindQuery.cc:103-122 | one literal with its quantifier: the run grows, ends, or the analysis gives up |
| Prefilter.RequiredLiteral | standalone_trace/query/FindQuery.cc:77-127 | every string with a match contains the literal; it is empty for patterns that are not simple, and otherwise a longest run of required characters unless a literal is under stacked quantifiers |
| Prefilter.FindIsRegexSearch | standalone_trace/query/FindQuery.cc:131-158 | prefilter plus regex over the parallel scan equals the first names of all sorted regex matches, or the first throw |
| EndpointDedup.SurvivorFor | standalone_trace/db/EndpointDedup.h:94-98 | every endpoint has an equal survivor |
| EndpointDedup.SurvivorsDistinct | standalone_trace/db/EndpointDedup.h:94-98 | no two survivors are equal |
| EndpointDedup.FirstOccurrencesStable | standalone_trace/db/EndpointDedup.h:94-98 | each survivor is the first of its kind and survivors keep their source order |
| Endpoints.FullKeyFields | standalone_trace/db/EndpointDedup.h:19-33 | two endpoints are equal exactly if they agree in every field, listed one by one, but the fallback mark |
| EndpointDedup.MaskIsRemainder | standalone_trace/db/EndpointDedup.h:115-127 | masking with a power of two less one is the remainder |
| EndpointDedup.SomeFree | standalone_trace/db/EndpointDedup.h:105-113 | a table at most half full has a free position, so probing ends |
| EndpointDedup.ProbedAll | standalone_trace/db/EndpointDedup.h:120-132 | reaching a free position shows that no stored endpoint is equal |
| EndpointDedup.Inserted | standalone_trace/db/EndpointDedup.h:129-132 | storing a new endpoint in the first free position keeps every stored endpoint reachable |
| EndpointDedup.DedupScratch.ClearTouched | standalone_trace/db/EndpointDedup.h:83-86 | the table is empty and keeps its size |
| EndpointDedup.DedupScratch.Reserve | standalone_trace/db/EndpointDedup.h:105-113 | a table of at least twice the list, a power of two; a large enough one is kept |
| EndpointDedup.DedupScratch.Probe | standalone_trace/db/EndpointDedup.h:118-128 | finds the slot of an equal endpoint or the first free position after its home |
| EndpointDedup.DedupScratch.MarkRepeats | standalone_trace/db/EndpointDedup.h:114-133 | marks exactly the repetitions and counts them |
| EndpointDedup.Compact | standalone_trace/db/EndpointDedup.h:138-144 | moves the unmarked endpoints to the front in order |
| EndpointDedup.DeduplicateInPlace | standalone_trace/db/EndpointDedup.h:98-146 | what is left are the first occurrences in source order, for any hash function; the count removed; the table is empty on exit |
| Decimal.ParseNatText | standalone_trace/db/GraphDb.cc:1740-1745 | printing a number and parsing it gives the number |
| Decimal.ParseIntText | standalone_trace/db/GraphDb.cc:1740-1761 | the same for signed 32-bit numbers |
| Decimal.ShortestIsText | standalone_trace/db/GraphDb.cc:1827-1831 | a digit text without superfluous zeros is the printed text of its value |
| BitRuns.BlockTogether | standalone_trace/db/GraphDb.cc:1971-1978 | two ranges of a group flow together exactly when they lie in the same maximal covered block |
| BitRuns.SortedItems | standalone_trace/db/GraphDb.cc:1953-1958 | sorting keeps the items and orders them by group and low end |
| BitRuns.RunIsBlock | standalone_trace/db/GraphDb.cc:1963-1978 | a run of the sorted scan is a maximal covered block of its group |
| BitRuns.RunTogether | standalone_trace/db/GraphDb.cc:1963-1978 | exactly the items of the run flow together with a member of it |
| BitRangeMerge.RangeTextParses | standalone_trace/db/GraphDb.cc:1737-1761 | the text written for a range parses back to it, in the direction written |
| BitRangeMerge.CollectItems | standalone_trace/db/GraphDb.cc:1923-1939 | exactly the eligible endpoints, with their ranges, in source order |
| BitRangeMerge.AssignGroups | standalone_trace/db/GraphDb.cc:1944-1951 | equal group numbers exactly for equal keys; as many groups as items only if all differ |
| BitRangeMerge.ScanRun | standalone_trace/db/GraphDb.cc:1963-1978 | the longest chain of touching ranges with its union, earliest member and directions |
| BitRangeMerge.MarkRun | standalone_trace/db/GraphDb.cc:1980-1982 | marks the members of the run other than the earliest |
| BitRangeMerge.JoinRuns | standalone_trace/db/GraphDb.cc:1959-1994 | after all runs every endpoint is dropped exactly if an earlier one flows together with it, and otherwise stands for its block |
| BitRangeMerge.CompactSurvivors | standalone_trace/db/GraphDb.cc:1996-2002 | the survivors move to the front in order: the merged list |
| BitRangeMerge.MoveUndropped | standalone_trace/db/GraphDb.cc:1996-2002 | moves what is not dropped to the front in order |
| BitRangeMerge.MergeEndpointBitRangesInPlace | standalone_trace/db/GraphDb.cc:1919-2003 | the list becomes the survivors in source order: untouched if alone or not eligible, otherwise with the text of the block, its direction and the merged mark |
| BitRangeMerge.StandsForBlock | standalone_trace/db/GraphDb.cc:1989-1993 | the text of a survivor parses back to the union of the ranges it stands for |
| BitRangeMerge.CoverageConserved | standalone_trace/db/GraphDb.cc:1853-2003 | per merge key the covered bits are unchanged |
| BitRangeMerge.MergeKeyFields | standalone_trace/db/GraphDb.cc:1867-1884 | the merge keys agree exactly if every field that counts, listed one by one, agrees |
| BitRangeMerge.FlowingMayMerge | standalone_trace/db/GraphDb.cc:1867-1884 | endpoints that flow together agree in all those fields |
| BitRangeMerge.TouchingFlow | standalone_trace/db/GraphDb.cc:1971-1978 | eligible endpoints that agree in all those fields and whose ranges touch flow together |
| BitRangeMerge.MergedCovers | standalone_trace/db/GraphDb.cc:1919-2003 | every endpoint that takes part is covered by a merged one of an endpoint that agrees with it in all those fields, over a range that holds its own |
| BitRangeMerge.SurvivorsSeparated | standalone_trace/db/GraphDb.cc:1971-1979 | survivors of one key are separated by a bit the key does not cover |
| BitRangeMerge.IneligibleKept | standalone_trace/db/GraphDb.cc:1929-1932 | endpoints that take no part keep order and text |
| BitRangeMerge.FixpointAlone | standalone_trace/db/GraphDb.cc:1919-2003 | a list merges to itself exactly if no two of its ranges flow together |
| BitRangeMerge.SecondPass | standalone_trace/db/GraphDb.cc:1919-2003 | a second pass changes something exactly if a flagged and an unflagged eligible endpoint agree in all else, the unflagged one is joined with a different range, and their blocks touch |
| BitRangeMerge.FlaggedMergesAgain | standalone_trace/db/GraphDb.cc:1985-1989 | with a flagged input a second pass can merge again |
| ReverseIndex.MentionsBySignal | standalone_trace/db/GraphDb.cc:3744-3752 | signals are visited in ascending order |
| ReverseIndex.MentionsExact | standalone_trace/db/GraphDb.cc:3743-3753 | the visits are exactly the paths each signal emitted |
| ReverseIndex.CountMentions | standalone_trace/db/GraphDb.cc:3704-3709 | the counter of each path is the number of its mentions |
| ReverseIndex.PrefixSums | standalone_trace/db/GraphDb.cc:3711-3716 | each counter becomes the start of its bucket |
| ReverseIndex.FillIds | standalone_trace/db/GraphDb.cc:3717-3719 | the table is all buckets one after the other and each counter the end of its bucket |
| ReverseIndex.CompactOne | standalone_trace/db/GraphDb.cc:3728-3730 | the bucket without repetitions is appended and no entry still to be read is overwritten |
| ReverseIndex.CompactBuckets | standalone_trace/db/GraphDb.cc:3720-3734 | all buckets without repetitions, and a range for each path that is mentioned |
| ReverseIndex.BuildPathRefs | standalone_trace/db/GraphDb.cc:3701-3738 | ranges and flat list equal their specification |
| ReverseIndex.RangeMeans | standalone_trace/db/GraphDb.cc:3701-3738 | the slice of a range is the strictly increasing list of exactly the signals that mention its path |
| ReverseIndex.RangesComplete | standalone_trace/db/GraphDb.cc:3722-3733 | a path has a range exactly if some signal mentions it |
| ReverseIndex.RangesOrdered | standalone_trace/db/GraphDb.cc:3722-3733 | ranges are in path order |
| Hierarchy.AncestorExtends | standalone_trace/db/GraphDb.cc:1661-1665 | an instance is an ancestor exactly if the path continues it after a dot |
| Hierarchy.OneChild | standalone_trace/db/GraphDb.cc:1661-1665 | a path lies in at most one child of an instance |
| Hierarchy.BuildSubtreeSignalCounts | standalone_trace/db/GraphDb.cc:2946-2957 | each instance has the number of signals in it, and only instances with signals are listed |
| Partitions.Planner.Split | standalone_trace/db/GraphDb.cc:2970-3002 | appends exactly the plan of the instance |
| Partitions.Planner.SplitAll | standalone_trace/db/GraphDb.cc:2993-2998 | appends the plans of the children and adds up what they hold |
| Partitions.PlanDivides | standalone_trace/db/GraphDb.cc:2970-3002 | the plan of an instance divides its signals: distinct roots, every signal contained, every count the number of signals choosing that partition, counts adding up |
| Partitions.PlanExplained | standalone_trace/db/GraphDb.cc:2985-3001 | a partition is an instance not split, above budget only without active children, or the remainder of a split |
| Partitions.CollectRoots | standalone_trace/db/GraphDb.cc:2962-2967 | exactly the instances without a parent |
| Partitions.PlanHierarchyPartitions | standalone_trace/db/GraphDb.cc:2959-3011 | the partitions of all roots divide the signals below them, in order of their roots, each as deep as it has instances above it, all of which hold more signals than the budget |
| Partitions.CountsConserved | standalone_trace/db/GraphDb.cc:2959-3011 | when every signal lies below a root the planned counts add up to the number of signals |
| Partitions.ChooseBucket | standalone_trace/db/GraphDb.cc:3032-3044 | the partition with the longest root above the signal, or the first bucket if there is none |
| Partitions.OrderByLength | standalone_trace/db/GraphDb.cc:3023-3029 | all partitions, longer roots first |
| Partitions.BucketSignalsByPartitions | standalone_trace/db/GraphDb.cc:3013-3048 | every signal is in a bucket and every bucket holds, in order, exactly the signals with the longest root there |
| Partitions.HavingExact | standalone_trace/db/GraphDb.cc:3031-3046 | every signal index is in exactly the bucket it chose |
| Partitions.BucketsHavePlannedSize | standalone_trace/db/GraphDb.cc:3013-3048 | when every signal lies below a root and none is a partition root, every bucket has exactly its planned size |
| CoverageCodec.EncodePortQueryBitmap | standalone_trace/db/GraphDb.cc:1764-1785 | routes first, then coverage, then the plain bit map; an unbound target is an error exactly when one is present |
| CoverageCodec.CoverageText | standalone_trace/db/GraphDb.cc:1777-1784 | what an encoded coverage looks like, character by character |
| CoverageCodec.RoutesText | standalone_trace/db/GraphDb.cc:1765-1775 | what encoded routes look like, character by character |
| CoverageCodec.DecodePortQueryBitmap | standalone_trace/db/GraphDb.cc:1786-1820 | the loop gives exactly what the text means |
| CoverageCodec.DecodeAllRanges | standalone_trace/db/GraphDb.cc:1791-1809 | the loop over the pieces gives exactly what they mean in order |
| CoverageCodec.CheckBrackets | standalone_trace/db/GraphDb.cc:1810-1817 | accepts exactly the texts with matching brackets and nothing outside them |
| CoverageCodec.BalancedCounts | standalone_trace/db/GraphDb.cc:1810-1817 | a text is balanced exactly if it closes as many brackets as it opens, no prefix closes more than it opens, and every other character stands inside brackets |
| CoverageCodec.ValidCoverageMeans | standalone_trace/db/GraphDb.cc:1801-1804 | the coverage the decoder accepts, spelled out: at most 256 ranges of 32-bit positions from bit 0 up, with an uncovered bit between neighbours |
| CoverageCodec.CoverageRoundTrip | standalone_trace/db/GraphDb.cc:1764-1820 | an encoded Q1 envelope decodes to the same coverage and bit map exactly if the bit map is balanced |
| CoverageCodec.AcceptedCoverage | standalone_trace/db/GraphDb.cc:1786-1820 | whatever is accepted is canonical coverage with a balanced bit map and decodes again from its own encoding |
| CoverageCodec.ReadQuad | standalone_trace/db/GraphDb.cc:1834-1840 | exactly four strict numbers between colons |
| CoverageCodec.DecodeCompactPortBitmap | standalone_trace/db/GraphDb.cc:1821-1851 | the loop gives exactly what the R1 text means |
| CoverageCodec.ValidRoutesMeans | standalone_trace/db/GraphDb.cc:1840-1846 | the routes the decoder accepts, spelled out: at most 256, the first from bit 0, each right after the one before, no two neighbours by the same map |
| CoverageCodec.RoutesRoundTrip | standalone_trace/db/GraphDb.cc:1764-1851 | every gap-free, non-mergeable route list from bit 0 decodes from its encoding |
| CoverageCodec.RoutesCanonical | standalone_trace/db/GraphDb.cc:1821-1851 | an accepted R1 text gives such a list and is its only encoding |
| CoverageCodec.SentinelDecodesOnly | standalone_trace/db/GraphDb.cc:1768-1770 | the decoder accepts the unbound target id that the encoder refuses |
| StderrPump.Pump.Received | agent_debug_automation/clients.py:148-156 | a chunk is appended, an empty one marks the end |
| StderrPump.Pump.TakeLocked | agent_debug_automation/clients.py:162-170 | everything buffered, with a note after a failure; the buffer is empty afterwards |
| StderrPump.Pump.TrySettle | agent_debug_automation/clients.py:180-191 | takes the text once the pipe is empty, the stream has ended, time is up or polling raises, which is recorded, and not before |
| StderrPump.RunConserves | agent_debug_automation/clients.py:143-197 | in every state of every interleaving the bytes written are the bytes returned, buffered and in the pipe, in order |
| StderrPump.RunAttributes | agent_debug_automation/clients.py:244-292 | without deadline, read error, forced stop or line break in a request the text returned with response k is exactly what the child wrote for it |
| StderrPump.CleanStepKeeps | standalone_trace/serve/ServeLoop.cc:99-102 | each step of child, pump and caller keeps the attribution when requests are one line each |
| StderrPump.LineBreakMixes | agent_debug_automation/tools.py:208-216 | a request with a line break: the child ends two responses, the caller reads one end and gets the diagnostics of both with it |
| StderrPump.AttributionNeedsOneLine | standalone_trace/serve/ServeLoop.cc:124-136 | attribution holds in all such runs exactly if no request has a line break |

## Left out

- `BoxDecomposition.Decompose`: starts after the intersection with the endpoint's native domain; the shortcut for one packed axis, which writes flattened ranges, and the concatenated bit-map text of a selection are not modelled; selections are lists of index pairs.
- `TraceCoordinates.FlatRewrite`: gives the indices; the sentence around them is not modelled.
- `Publication.RunInv`: the metadata envelope (header bytes and size) is one text computed from the DB; file attributes, signal masks and link checks are left out; a failed system call is the abort path.
- `TopK.ParallelTopK`: a thrown exception is the index that threw; the order is strict and total, so equal items are identical; the standard heap and sort operations enter by what they guarantee.
- `EditDistance.BoundedEditDistance`: the scratch rows are allocated per call.
- `Suggestions.TopSuggestions`: lengths of names fit the machine word.
- `ExpressionParser.ParseInvertsPrint`: on tokens; the tokenizer, the text of literals and constants, and error positions are left out. The ten binary level functions are one, indexed by level.
- `LogicValues.ReductionIsFold`: values have at least one bit; parsing sized constants and hexadecimal text is left out.
- `VirtualTransitions.IterVirtualTransitions`: the generator is the list it yields; the heap of times is an ordered list.
- `VirtualSignals.DenoteInlines`: re-parsing of entries stored without a syntax tree is left out.
- `VirtualStore.VirtualSession.StoreEntries`: one session over one waveform; the hash of an expression is the expression; session files, descriptions and the bus-building front ends (concat, slice, reverse, slices) that only build the entries are left out. The order of pairs in a dictionary is left open.
- `VirtualStore.VirtualSession.IterTransitions`: times are not negative, as the waveform backend reads them as unsigned numbers; the value a window that ends before it starts gives the first time is stated for definitions over real signals.
- `SignalGraph.LayersFor`: nothing is claimed about which chains reach the depth limit of 16, since shared dependencies are visited once; the names in the error text are a set in the source and a chain here.
- `Overview.BuildOverviewSegments`: transition times strictly increase, as the caller supplies them; values are raw, without radix formatting.
- `Prefilter.RequiredLiteral`: matching is defined for literals, escapes, `.`, `^`, `$` and quantifiers, stacked ones included; for other patterns the literal is empty, which filters nothing. The suggestions printed when nothing is found are left out.
- `EndpointDedup.DeduplicateInPlace`: the hash function is arbitrary, so the mixing of the default one is left out; the length error of the table and moved-from records behind the new length are left out.
- `BitRangeMerge.MergeEndpointBitRangesInPlace`: the hash map of keys is a map; the list after the new length is left open.
- `ReverseIndex.BuildPathRefs`: takes the mentions in visiting order; 32-bit overflow of table sizes is left out.
- `Partitions.PlanHierarchyPartitions`: takes a hierarchy whose children lists are the instances with that parent, once each; active children keep that order, since the final list is sorted. Logging is left out.
- `CoverageCodec.DecodePortQueryBitmap`: the partly filled output of a failed decode is left out.
- `StderrPump.RunAttributes`: text is a sequence of characters, decoding is left out; polling and sleeping are steps that may or may not be taken.
- Walks over the compiled design (trace body builders, connection following, selector description): they rest on a library that is not part of this model.
- The trace query as a whole, argument parsing, JSON and text output, memory logging, session files, ranking scores and signal path mapping.
