# Verified model of the migration agent's core

This project models the parts of the agent whose correctness is hard to see from the code, and proves what they
promise, for all inputs and all interleavings.

* **The filter compiler** (`Filter*.dfy`, `FilterSql.dfy` with the module `SqlLogic`). The scanner and the parser are
  classes that change their fields step by step, as in the source, and are proved against functions on the text. The
  parser's language is characterised by an independent grammar of derivation trees. The translation produces SQL text
  with holes and an ordered argument list; a separate reader parses that text again as SQL, binds the arguments from
  left to right and evaluates in three-valued logic (sections 8.2, 8.4, 8.5 and 8.12 of SQL-92).
* **The scheduler** (`Dispatch*.dfy`, `Scheduler*.dfy`). `dispatch` is a class method that sorts and pops in place; the
  event loop, the worker goroutines, the channels and `Close` are a state machine.
* **Pools and pipelines** (`Pool2*.dfy`, `Pipeline*.dfy`). `Pool2` with its `Pipeline2`s, drains, event loop, callers of
  `Stop` and `Cancel` is a state machine that contains the scheduler's; the critical sections are class methods proved to
  be its steps. `Pipeline` is a second machine, on a scheduler that may answer anything.
* **The stored matches of groups and the VM query** (`Tables.dfy`, `Group*.dfy`, `VmPages.dfy`), on top of the compiler:
  a filter is its text, compiled, read as SQL and evaluated on joined rows.
* **Rightsizing** (`Rightsizing*.dfy`): percentiles, cluster aggregates with NULLs, batches.

`dafny verify dfyconfig.toml` checks all of it.

## What is assumed

* The database evaluates SQL as the standard says; how it compares, matches (`LIKE`, regular expressions) and casts
  values that are not NULL is a parameter (`SqlLogic.Semantics`). The only law asked of it is that numbers are equal when
  they are the same number (`Lawful`), which the empty `IN` list, written `(1=0)` or `(1=1)`, needs.
* The mapper from field names to columns is any partial function; which regular expressions compile is any predicate.
* Keys: `vinfo` and `vm_inspection_status` by VM ID, `group_matches` by group ID, utilization by report and VM.
* A critical section of a mutex, a send, a receive and the closing of a channel are each one atomic step. `select` may take
  any arm that is ready.
* `float64` is a real number. Machine integers wrap around where it matters (`RightsizingStats.Wrap`, `VmPages.Wrapped`).

## Where the code differs from its documentation

* `doc.go` lets identifiers hold digits; the scanner does not, and neither does the model.
* `doc.go` asks for a regular expression after `~` only; the parser also takes one after `=` and the other comparisons.
* Lists may be empty, and `like` is an operator, which the grammar comments do not say.
* A literal cannot end in a backslash: `LiteralRoundTrip` says exactly which strings survive quoting.
* `Percentile` is a nearest rank for every fraction up to 1, zero and below included; above 1 it returns the greatest
  sample, and no sample is a nearest rank (`PercentileIsNearestRank`). The average of `ComputeStats` is the mean only if
  the sum fits into 64 bits (`AverageIsMeanIffSumFits`, `AverageOverflows`).
* `List` with a filter that does not compile has every VM, while the matches of such a group are empty
  (`UncompiledAgreesIffNoVms`).
* NULL percentages still weigh in a cluster's total: a column is the average over the VMs that have the metric exactly if
  the others have no weight or the sum is zero (`ClusterUndilutedIff`, with a failing cluster in `NullsDilute`).
* A cluster's maximum can read below its 95th percentile if VMs with a negative number of CPUs take part;
  `ClusterInOrderIff` says exactly when, `NegativeCpusBreakOrder` shows one.
* A `Start` that fails at a nil builder leaves the pool started, without an event loop (`Pool2.Start`,
  `NilBuilderExample`).
* With negative priorities, which only `AddPriorityWork` could introduce, `dispatch` may leave a worker idle that could
  work; `OptimalIffNotStranded` says exactly when, `StrandedExample` shows an instance.

## Model

| member | source | states |
|---|---|---|
| `FilterLexer.Lexer.Next` | pkg/filter/lexer.go:187-203 | loads the first character into a new scanner, moves any other by one, and at the end of input moves only pos |
| `FilterLexer.Lexer.Scan` | pkg/filter/lexer.go:23-184 | one scan returns exactly the lexeme the text has at the cursor and moves behind it, within bounds and with progress |
| `FilterLexer.Lexer.ScanWord` | pkg/filter/lexer.go:40-73 | words, keywords and the dot rule are those of the specification, whose keywords `FilterCase.WordsInAnyCase` pins in every case |
| `FilterLexer.Lexer.ScanNumber` | pkg/filter/lexer.go:75-98 | numbers with at most one dot and an optional unit |
| `FilterLexer.Lexer.ScanLiteral` | pkg/filter/lexer.go:142-177 | a literal up to its closing delimiter, with only the delimiter unescaped |
| `FilterLexer.Lexer.ScanOperator` | pkg/filter/lexer.go:100-183 | operators of one and two characters, and the illegal rest |
| `FilterLexer.Lexemes` | pkg/filter/lexer.go:23-184 | the stream of lexemes of any text is finite, non-empty and ends at the first end or illegal token |
| `FilterLexerLaws.LiteralRoundTrip` | pkg/filter/lexer.go:142-177 | quoting a string and scanning gives it back as one token if and only if it has no zero byte and does not end in a backslash |
| `FilterLexerLaws.LiteralIsQuotable` | pkg/filter/lexer.go:142-177 | whatever the text, a literal that closes holds no zero byte and does not end in a backslash |
| `FilterLexerLaws.ScannedIsLexable` | pkg/filter/lexer.go:23-184 | every legal token carries a text of the shape its kind promises: words, keywords, decimals with units, strings and patterns that can be quoted |
| `FilterLexerLaws.LexemesAreLexable` | pkg/filter/lexer.go:23-184 | so does every token before the end of the stream |
| `FilterLexerLaws.TextScans` | pkg/filter/lexer.go:23-184 | the spelling of a symbol followed by a blank scans as that symbol |
| `FilterLexerLaws.ScanUndoesRender` | pkg/filter/lexer.go:23-184 | scanning undoes writing out any sequence of spellable symbols |
| `FilterCase.WordsInAnyCase` | pkg/filter/lexer.go:51-71 | a word is a keyword or a boolean exactly if it is one of eight words in any case, and then which one |
| `FilterCase.CasedWordScans` | pkg/filter/lexer.go:40-73 | these words scan as one token in any case, wherever they stand |
| `FilterCase.BooleansInAnyCase` | pkg/filter/parser.go:231-232 | a boolean is true exactly if it spells true in any case |
| `FilterCase.QuantitiesInAnyCase` | pkg/filter/ast.go:112-138 | a decimal with a unit in any case denotes that amount in that unit |
| `FilterCase.CasedQuantityScans` | pkg/filter/lexer.go:75-98 | and scans as one token |
| `FilterCase.NamesInAnyCase` | pkg/filter/sql.go:16-127 | trees that differ only in the case of field names translate alike |
| `FilterCase.LowerIff` | pkg/filter/lexer.go:52-52 | lower-casing identifies exactly the texts that differ only in the case of ASCII letters |
| `FilterCase.WordCharacters` | pkg/filter/lexer.go:205-207 | names start with a letter in either case or an underscore |
| `FilterCase.BlanksArePassedOver` | pkg/filter/lexer.go:24-26 | spaces, tabs and line ends are passed over, and no other character is |
| `FilterNumbers.QuantityIsFinite` | pkg/filter/ast.go:112-138 | the amount of a quantity is a finite decimal that is not negative, whatever its text |
| `FilterNumbers.DecimalTextParses` | pkg/filter/ast.go:112-138 | and every such decimal has a text that denotes it |
| `FilterNumbers.QuantityTextParses` | pkg/filter/ast.go:112-138 | a decimal followed by a unit denotes that amount in that unit |
| `FilterParser.Parser.Next` | pkg/filter/parser.go:244-250 | the parser moves to the next lexeme, or fails at an illegal one with its position |
| `FilterParser.Parser.Value` | pkg/filter/parser.go:223-241 | a value is parsed as the grammar function does, and consumes exactly its symbols |
| `FilterParser.Parser.List` | pkg/filter/parser.go:191-220 | a bracketed list of strings, possibly empty |
| `FilterParser.Parser.Membership` | pkg/filter/parser.go:137-148 | IN and NOT IN |
| `FilterParser.Parser.Containment` | pkg/filter/parser.go:149-166 | CONTAINS and NOT CONTAINS |
| `FilterParser.Parser.Comparison` | pkg/filter/parser.go:168-187 | an operator and the literals it admits |
| `FilterParser.Parser.Equality` | pkg/filter/parser.go:131-188 | a name and the predicate on it |
| `FilterParser.Parser.Factor` | pkg/filter/parser.go:112-122 | a comparison or a bracketed expression |
| `FilterParser.Parser.Term` | pkg/filter/parser.go:96-107 | left-associated AND, by the loop |
| `FilterParser.Parser.Expression` | pkg/filter/parser.go:74-91 | left-associated OR, with the nesting counter kept and its limit enforced |
| `FilterParser.Parse` | pkg/filter/parser.go:49-69 | parsing any text equals its specification; a failure has a position within the text |
| `FilterGrammarSound.ParsesIffDerives` | pkg/filter/parser.go:74-241 | a symbol sequence parses to a tree if and only if the grammar, AND binding tighter than OR, derives that tree from it with at most 100 levels |
| `FilterGrammarSound.DerivationParses` | pkg/filter/parser.go:74-241 | every derivation tree within the limit parses to the tree it stands for |
| `FilterGrammarSound.DerivationIsUnique` | pkg/filter/parser.go:74-241 | the grammar is unambiguous |
| `FilterPrinting.PrintMeans` | pkg/filter/parser.go:74-122 | the minimal-bracket print of a tree is a derivation of that tree |
| `FilterPrinting.LeafIff` | pkg/filter/parser.go:131-241 | which comparisons there are: each operator with exactly the literals it takes |
| `FilterPrinting.PrintIsMinimalOr` | pkg/filter/parser.go:74-122 | no derivation of the same tree has fewer symbols or fewer levels |
| `FilterPrinting.ParseUndoesPrint` | pkg/filter/parser.go:74-241 | parsing the minimal print returns the same tree |
| `FilterPrinting.ExactRange` | pkg/filter/parser.go:74-122 | exactly the printable trees that nest at most 100 expressions have any spelling |
| `FilterPrinting.TextParsesIffDerives` | pkg/filter/parser.go:49-69 | a text parses to a tree if and only if its lexemes end legally and derive that tree |
| `FilterPrinting.ParseUndoesSpelling` | pkg/filter/parser.go:49-241 | from derivation tree to text and back, scanner and parser together |
| `FilterPrinting.ParseUndoesPrintedText` | pkg/filter/parser.go:49-241 | from tree to text and back, for every printable tree within the limit whose names are words and no keywords, whose strings and patterns can be quoted and whose amounts are finite decimals |
| `FilterPrinting.ExactTextRange` | pkg/filter/parser.go:49-69 | and these, with at most 100 nested expressions, are exactly the trees that any text parses to |
| `FilterMeaning.TranslatesIffWellTyped` | pkg/filter/sql.go:16-177 | on every tree the parser builds translation never panics, and succeeds exactly when every field is known and every literal fits it |
| `SqlLogic.TruthTables` | pkg/filter/sql.go:57-60 | AND, OR and NOT of the evaluation are minimum, maximum and reversal with unknown between false and true |
| `SqlLogic.UnknownIffNull` | pkg/filter/sql.go:57-66 | a predicate of two values is unknown exactly when one is NULL |
| `FilterMeaning.TranslationReads` | pkg/filter/sql.go:16-127 | the emitted text reads back as the condition of the tree in any context, consuming as many holes as there are arguments |
| `FilterMeaning.TranslationMeans` | pkg/filter/sql.go:16-127 | that condition has the tree's truth value wherever its arguments stand in the argument list |
| `FilterMeaning.TranslationKeepsMeaning` | pkg/filter/sql.go:16-127 | the emitted SQL, read and evaluated, is true, false or unknown exactly as the filter, with NULL columns, empty lists and NOT CONTAINS |
| `FilterCompiler.Compile` | pkg/filter/parser.go:37-43 | compiling ends in a query or a positioned error, never in a crash |
| `FilterCompiler.ParsedIsFilter` | pkg/filter/parser.go:49-69 | every tree the parser returns has the shape translation relies on |
| `FilterCompiler.EmptyTextFails` | pkg/filter/parser.go:49-69 | the empty text is no filter |
| `FilterCompiler.CompileNeverCrashes` | pkg/filter/parser.go:37-69 | for every text and every mapper |
| `FilterCompiler.CompilesIffWellTyped` | pkg/filter/sql.go:16-177 | a text compiles exactly when it parses and its tree is well typed |
| `FilterCompiler.CompiledQueryMeansFilter` | pkg/filter/parser.go:37-43 | end to end: the compiled query has on every row the meaning of the filter derived from the text |
| `Dispatch.Scheduler.TakeWorker` | pkg/scheduler/scheduler.go:181-198 | the first eligible worker is taken and those passed over are put back behind the rest |
| `Dispatch.Scheduler.Drain` | pkg/scheduler/scheduler.go:177-204 | the loop over the sorted queue computes the assignment of its specification |
| `Dispatch.Scheduler.DispatchAll` | pkg/scheduler/scheduler.go:151-205 | items and workers are conserved, starts are eligible and by priority, and nothing startable is left |
| `Dispatch.Scheduler.Receive` | pkg/scheduler/scheduler.go:123-125 | accepting an item is a dispatch of the queue with it; at the loop head nothing startable is left |
| `Dispatch.Scheduler.Release` | pkg/scheduler/scheduler.go:126-128 | the same when a worker comes back |
| `Dispatch.AssignOutcome` | pkg/scheduler/scheduler.go:177-204 | on a sorted queue with reserved workers first, the loop has the outcome promised |
| `Dispatch.OutcomeExists` | pkg/scheduler/scheduler.go:151-205 | for every queue and every set of idle workers a dispatch has an outcome |
| `DispatchLaws.AssignmentBound` | pkg/scheduler/scheduler.go:177-204 | what no assignment of queued items to idle workers can exceed |
| `DispatchLaws.OptimalIffNotStranded` | pkg/scheduler/scheduler.go:151-205 | a dispatch starts as many items as any eligible assignment if and only if no negative priority is stranded behind priority zero |
| `DispatchLaws.NonNegativeIsOptimal` | pkg/scheduler/scheduler.go:151-205 | with non-negative priorities it always does, and no queued item has an eligible idle worker |
| `DispatchLaws.StrandedExample` | pkg/scheduler/scheduler.go:185-188 | three items and two workers on which a better assignment exists |
| `SchedulerLaws.NextInv` | pkg/scheduler/scheduler.go:43-147 | every step of the event loop, a worker, a submission or Close keeps the invariant |
| `SchedulerLaws.RunInv` | pkg/scheduler/scheduler.go:72-147 | so it holds in every state of every run |
| `SchedulerLaws.NothingLostNothingDoubled` | pkg/scheduler/scheduler.go:43-54 | accepted items are the queued and the started ones as multisets, none starts twice, and a future has one result exactly if its job was refused or its function ended |
| `SchedulerLaws.SendsNeverBlock` | pkg/scheduler/scheduler.go:43-80 | in every state workers of each kind are conserved, and every send on done or on a result channel has room |
| `SchedulerLaws.CloseReturns` | pkg/scheduler/scheduler.go:112-118 | once the loop has stopped and the functions have ended, every worker step brings Close nearer, one is possible until it can return |
| `SchedulerLaws.DroppedForever` | pkg/scheduler/scheduler.go:129-130 | work queued when the loop stops stays queued and its future never resolves |
| `SchedulerLaws.ClosedDelivers` | pkg/scheduler/scheduler.go:112-133 | once Close has returned, an accepted job has its result if and only if it does not wait in the queue |
| `SchedulerLaws.DroppedExample` | pkg/scheduler/scheduler.go:112-133 | a run in which Close returns while an accepted job waits |
| `SchedulerProgress.AcceptPossible` | pkg/scheduler/scheduler.go:135-147 | while the loop runs, a new submission can be accepted |
| `SchedulerProgress.MovesOrSettled` | pkg/scheduler/scheduler.go:120-133 | while the loop runs, some goroutine can move unless all accepted work is done and every worker is back |
| `SchedulerProgress.SettledDelivers` | pkg/scheduler/scheduler.go:43-54 | when all is settled, everything accepted has its result |
| `SchedulerProgress.InternalIsAnErrand` | pkg/scheduler/scheduler.go:120-133 | the scheduler's own steps between two function ends are finitely many |
| `Pool2Laws.NextAhead` | pkg/work/pool2.go:125-211 | no step takes a pipeline or the loop back, clears a done mark or replaces a cancel channel |
| `Pool2Laws.RunAhead` | pkg/work/pool2.go:125-211 | nor does any run |
| `Pool2Invariant.NextPoolInv` | pkg/work/pool2.go:57-221 | every step of every goroutine keeps the invariant of pool, pipelines and scheduler |
| `Pool2Invariant.RunPoolInv` | pkg/work/pool2.go:57-221 | so it holds in every state of every run |
| `Pool2Invariant.SubmitsWhileOpen` | pkg/work/pipeline2.go:76-98 | pipelines submit only to a scheduler that is not closing |
| `Pool2Results.SubmissionsAreFresh` | pkg/work/pipeline2.go:76-98 | every submission is a job never submitted before |
| `Pool2Results.UnitsInOrder` | pkg/work/pipeline2.go:66-93 | a unit is submitted only when the one before it was answered, and Finalize only when the builder had no more, a unit failed, or the pipeline was stopped |
| `Pool2Results.NoUnitAfterFailure` | pkg/work/pipeline2.go:83-91 | after a unit that failed, or the last of the builder, no unit of the pipeline is ever submitted |
| `Pool2Results.ShutdownOrder` | pkg/work/pool2.go:100-123 | in every state of every run: the pool finalizer is submitted only after every Finalize ran exactly once, the scheduler closes only after the pool finalizer ran exactly once, nothing is refused, and a returned Stop leaves a closed scheduler without goroutines |
| `Pool2Results.FinalizeNeverWaits` | pkg/work/pool2.go:37-44 | with a reserved worker for each pipeline no Finalize is ever in the queue: it starts when it is accepted |
| `Pool2Results.CleanupNeverWaits` | pkg/work/pool2.go:193-221 | a waiting finalizer needs only finitely many steps of the scheduler itself, and one of them is possible; no function has to return |
| `Pool2Results.ChannelsCloseOnce` | pkg/work/pool2.go:125-211 | each cancel channel is its pipeline's only one and closed exactly once, with the done mark; stop channels are closed at most once; a returned Cancel found its pipeline finished |
| `Pool2Results.CancelReturns` | pkg/work/pool2.go:125-152 | once its pipeline has finished, a Cancel that has not returned can come nearer to its return |
| `Pool2Results.CancelNotDelayed` | pkg/work/pool2.go:125-211 | no step of anybody takes it further away or changes the channel it waits on |
| `Pool2Progress.NeverDeadlocks` | pkg/work/pool2.go:57-221 | in every reachable state some goroutine or pending call can move, with no further unit from any builder, or everything has ended |
| `Pool2Termination.ProgressWeighsLess` | pkg/work/pool2.go:57-221 | every step of a goroutine or a pending call lowers a measure, if builders are bounded |
| `Pool2Termination.EveryoneReturns` | pkg/work/pool2.go:100-152 | with builders that end, every run is finite after the last call of Stop or Cancel began, and ends with all calls returned, all pipelines finalized and all goroutines gone, whichever ready arms the selects take |
| `Pool2Termination.JoinedIsStopped` | pkg/work/pipeline2.go:117-129 | whoever waits for a pipeline in Stop or Cancel has closed its stop channel, exactly once, unless the pipeline was on its way out |
| `Pool2Termination.StopNeedsNoUnits` | pkg/work/pipeline2.go:66-129 | with a reserved worker for each pipeline, a pipeline that a caller of Stop or Cancel waits for always has a step towards its end that is its own or the end of its Finalize; no unit function has to return |
| `Pool2Termination.StopMayBePassedOver` | pkg/work/pipeline2.go:69-91 | a stopped pipeline may pass over its stop in both selects and take another unit, which is why builders must end |
| `Pool2Object.Pool2.constructor` | pkg/work/pool2.go:37-44 | by default as many normal and reserved workers as pipelines |
| `Pool2Object.Pool2.Start` | pkg/work/pool2.go:57-98 | which calls fail and why; a failed call changes nothing if and only if no nil builder made it fail; a successful one is the start of a run |
| `Pool2Object.StartPipelines` | pkg/work/pool2.go:78-94 | pipelines are launched in any order up to the first nil builder |
| `Pool2Object.NilBuilderExample` | pkg/work/pool2.go:74-84 | a pool of one nil builder fails to start and counts as started for good |
| `Pool2Object.Pool2.CancelSection` | pkg/work/pool2.go:126-146 | unknown key, done, or a shared channel to wait on; a step of the machine if there is an event loop |
| `Pool2Object.Pool2.HandleEvent` | pkg/work/pool2.go:197-211 | the locked part of the event loop is a step of the machine and tells the last report |
| `Pool2Object.Pool2.IsRunning` | pkg/work/pool2.go:180-191 | true exactly if some pipeline is not done |
| `PipelineLaws.RunInv` | pkg/work/pipeline.go:43-127 | the invariant of the restartable pipeline in every state of every run |
| `PipelineLaws.StoppableFold` | pkg/work/pipeline.go:65-127 | whatever the builder, interleaving, stop and answers, an ended run threaded its result through the units in order up to the first error or the stop, published it, and Err says which; if the units compute a function the result is their sequential execution; an active run shows the unit submitted last and the result given to it; at most one run is active, its stop channel is closed at most once, at most one unit is submitted after that; a caller of Stop has stopped the run it joins and returns when it is gone |
| `PipelineLaws.EndedIsFold` | pkg/work/pipeline.go:65-109 | the same for one run |
| `PipelineLaws.NothingAfterTheEnd` | pkg/work/pipeline.go:65-109 | an ended run submits nothing more and keeps its result and error |
| `PipelineObject.SliceWorkBuilder.Next` | pkg/work/models.go:24-31 | successive calls give the units in order, then nothing |
| `PipelineObject.RunUnits` | pkg/work/pipeline.go:81-108 | the loop computes the sequential execution up to the first error or stop |
| `PipelineObject.FailedStaysFailed` | pkg/work/pipeline.go:102-105 | units after the first failure do not matter |
| `PipelineObject.Pipeline.Start` | pkg/work/pipeline.go:43-63 | begins a run, or reports why not and changes nothing |
| `PipelineObject.Pipeline.StopSection` | pkg/work/pipeline.go:114-122 | closes the stop channel of the active run unless it was closed |
| `PipelineObject.Pipeline.Publish` | pkg/work/pipeline.go:90-94 | publishes the unit's state and the result so far and submits the unit |
| `PipelineObject.Pipeline.Exit` | pkg/work/pipeline.go:71-79 | publishes result and error and frees the pipeline |
| `Tables.LeftJoinsIds` | internal/store/vm_queries.go:212-244 | left joins lose no VM and invent none |
| `Tables.LeftJoinSound` | internal/store/vm_queries.go:212-244 | every row of a left join comes from a left row and a row that matches it, or from a left row that nothing matches, with NULLs |
| `Tables.LeftJoinComplete` | internal/store/vm_queries.go:212-244 | and every left row appears with each row that matches it |
| `Tables.KeyedJoins` | internal/store/vm_queries.go:195-207 | joins on keys keep the rows, their number and order |
| `GroupMatches.GroupsJoinKeyed` | internal/store/vm_queries.go:238-244 | the aggregate of groups has at most one row for a VM |
| `GroupMatches.GroupsColumn` | internal/store/vm_queries.go:238-244 | the groups column of a VM holds exactly the names of the groups whose stored row has it, each once, and NULL if there are none |
| `GroupMatches.FlatRowsAre` | internal/store/vm_queries.go:212-244 | a row a filter is evaluated on is a row of the other joined tables with that column added |
| `GroupMatches.ByFilterIff` | internal/store/vm.go:415-424 | a text is a filter exactly if it parses to a well-typed tree |
| `GroupMatches.ListMeans` | internal/store/vm.go:33-57 | List with a filter has exactly the VMs with a row on which the tree of the text is true, by the meaning of the tree and not of the SQL |
| `GroupMatches.CountIsListLength` | internal/store/vm.go:127-147 | Count equals the number of rows of the unpaged List |
| `GroupMatches.ListIsSelection` | internal/store/vm.go:33-57 | List has exactly one row for each VM the filter query selects; which those are says `ListMeans` |
| `GroupMatches.QueryIgnoresGroups` | internal/store/vm.go:415-424 | the compiled query of a filter that names no groups field cannot tell rows apart that differ in the groups column |
| `GroupMatches.SelectionIgnoresMatches` | internal/store/vm_queries.go:212-244 | what such a filter selects does not depend on the stored matches |
| `GroupRefresh.RebuildMakes` | internal/store/group.go:323-349 | a rebuild that succeeds stores for such a group what its filter selects |
| `GroupRefresh.RebuildLeaves` | internal/store/group.go:323-349 | it leaves every other group's row alone |
| `GroupRefresh.RebuildSucceedsIff` | internal/store/group.go:323-349 | it succeeds exactly when no group to insert has a row or comes twice |
| `GroupRefresh.IdealAgrees` | internal/store/group.go:369-387 | stored identifiers are exactly those List has for the filter, each once |
| `GroupRefresh.AgreementMeans` | internal/store/group.go:369-387 | so the stored identifiers are those of the VMs with a row on which the group's filter is true |
| `GroupRefresh.UncompiledAgreesIffNoVms` | internal/store/vm.go:415-424 | for a filter that does not compile index and List agree exactly if there are no VMs |
| `GroupRefresh.OrderDoesNotMatter` | internal/store/group.go:323-349 | rebuilding in any order succeeds or fails alike, and stores the same rows if no filter looks at groups |
| `GroupTables.GroupStore.RefreshMatches` | internal/store/group.go:289-352 | unknown groups are reported before any change; success exactly when no key is in the way; then the index agrees with List and holds the VMs on which the group's filter is true, groups that do not compile have no row, the others are untouched |
| `GroupTables.GroupStore.Insert` | internal/store/group.go:323-349 | the inserting loop is the rebuild of the specification and keeps the key |
| `GroupTables.GroupStore.GetMatchedIDs` | internal/store/group.go:369-387 | the identifiers of the group's row, none for NULL or no row |
| `GroupTables.GroupStore.DeleteMatches` | internal/store/group.go:355-366 | the group's row is gone, the others stay |
| `VmPages.WithSort` | internal/store/vm.go:456-500 | known fields in order with their direction, NULLS LAST on the utilization columns |
| `VmPages.OrderByAppend` | internal/store/vm.go:481-498 | sort lists are read from left to right |
| `VmPages.OrderByOne` | internal/store/vm.go:481-496 | each known field adds its column with the direction asked for, an unknown one nothing |
| `VmPages.SortColumnsExist` | internal/store/vm.go:457-478 | every sort field names a column of the query, nullable exactly if it comes from the utilization |
| `VmPages.ColumnsAreDistinct` | internal/store/vm.go:457-478 | different fields name different columns |
| `VmPages.BeforeIsStrictTotal` | internal/store/vm.go:480-499 | for every sort list the order of rows with the tie-break on id is strict and total |
| `VmPages.SortedMeans` | internal/store/vm.go:480-499 | of two rows of a sorted list, at the first sort column where they differ the first is less if ascending and greater if descending, a NULL comes second in the utilization columns whatever the direction, and if no column differs the identifiers ascend |
| `VmPages.SortedIsUnique` | internal/store/vm.go:480-499 | so there is only one sorted sequence of the same VMs |
| `VmPages.SortExists` | internal/store/vm.go:480-499 | and there is one |
| `VmPages.PageBounds` | internal/handlers/v1/vms.go:41-54 | page, size and offset from the parameters, with machine arithmetic |
| `VmPages.PageCount` | internal/handlers/v1/vms.go:91-95 | the least number of pages that holds everything, at least one |
| `VmPages.PagesPartition` | internal/handlers/v1/vms.go:41-95 | pages 1 to pageCount, each from its own query, together are the whole list in order, each VM once |
| `VmPages.PagesOfSelection` | internal/store/vm.go:33-64 | with the count of Count, the pages of a list, filtered or not, hold exactly the VMs it is about, each once |
| `RightsizingStats.ComputeStats` | pkg/rightsizing/stats.go:21-44 | copies, sorts and sums in place as specified and leaves the input unchanged |
| `RightsizingStats.PercentileIsNearestRank` | pkg/rightsizing/stats.go:49-59 | for every fraction p the percentile is a sample, and it is the least one with at least ceil(p n) samples not above it if and only if p is at most 1 |
| `RightsizingStats.PercentilesAscend` | pkg/rightsizing/stats.go:49-59 | percentiles ascend and stay at or below the greatest sample, for every fraction |
| `RightsizingStats.StatsAreOrdered` | pkg/rightsizing/stats.go:35-43 | P95, P99, Max in order; Max is the greatest sample |
| `RightsizingStats.StatsAreNearestRanks` | pkg/rightsizing/stats.go:35-43 | P95 and P99 are the least samples with at least 95 and 99 percent of the samples not above them |
| `RightsizingStats.AverageIsMeanIffSumFits` | pkg/rightsizing/stats.go:30-38 | the average is the mean exactly if the sum fits into 64 bits, and then lies among the samples |
| `RightsizingStats.AverageOverflows` | pkg/rightsizing/stats.go:30-38 | two samples whose average comes out below both |
| `RightsizingStats.OrderOnlyForLatest` | pkg/rightsizing/stats.go:21-44 | all but Latest are invariant under permutation |
| `RightsizingClusters.UtilizationIsOrdered` | internal/store/rightsizing.go:216-226 | through the pivot each VM keeps P95 at or below Max, both NULL together; a negative memory size turns its memory percentages around |
| `RightsizingClusters.PivotIsGreatest` | internal/store/rightsizing.go:216-226 | a pivoted column is the greatest value of the metric's rows, NULL exactly if there is none |
| `RightsizingClusters.VmPercentages` | internal/store/rightsizing.go:216-226 | with one row for each metric, CPU percentages are hundredths of average, P95 and maximum, memory percentages the share of these kilobytes in the VM's memory |
| `RightsizingClusters.VmWithoutMetric` | internal/store/rightsizing.go:216-226 | a VM without the metric has no percentage |
| `RightsizingClusters.ClusterMemory` | internal/store/rightsizing.go:254-265 | where all VMs have the metric, a memory column of the cluster is the share of all their kilobytes in all their memory |
| `RightsizingClusters.ClusterInOrderIff` | internal/store/rightsizing.go:254-321 | for every cluster P95 is at most Max if and only if the weighted gaps do not have the opposite sign of the total weight |
| `RightsizingClusters.ClusterKeepsOrder` | internal/store/rightsizing.go:254-321 | from samples to cluster row P95 is at most Max for CPU and memory, whatever is NULL, if no size is negative |
| `RightsizingClusters.AverageAmongMembers` | internal/store/rightsizing.go:259-265 | over the members that have a percentage and weigh something an aggregate lies among them; members without one scale it by exactly their share of the weight |
| `RightsizingClusters.ClusterAmongMembers` | internal/store/rightsizing.go:254-321 | so for each column of the cluster row |
| `RightsizingClusters.UndilutedIff` | internal/store/rightsizing.go:259-265 | NULL percentages leave an aggregate what it is over the others if and only if they have no weight or the sum is zero |
| `RightsizingClusters.ClusterUndilutedIff` | internal/store/rightsizing.go:254-321 | so for each column of the cluster row |
| `RightsizingClusters.NullsDilute` | internal/store/rightsizing.go:205-265 | from samples to cluster row: with a VM that has only a memory metric the cluster reads half the CPU maximum of its only member |
| `RightsizingClusters.NegativeCpusBreakOrder` | internal/store/rightsizing.go:205-265 | a cluster with a negative CPU count whose maximum reads below its 95th percentile |
| `RightsizingBatches.ParseEntity` | pkg/rightsizing/vsphere.go:199-222 | the metrics are those with samples, each with the statistics of its first non-empty series; the warnings are those of the empty series, or that there is nothing |
| `RightsizingBatches.ParseBatchResults` | pkg/rightsizing/vsphere.go:186-239 | every VM of the batch gets a named report with what the last entity for it has, or a warning |
| `RightsizingBatches.FailedBatch` | pkg/rightsizing/vsphere.go:271-280 | when the query fails every VM of the batch gets that warning and nothing else |
| `RightsizingBatches.QueryMetrics` | pkg/rightsizing/vsphere.go:244-284 | the batches are the input cut in order, ceil(n / size) of them; with answers about batch members only, every VM ends with a named report whose metrics and warnings are those of the answer to the last batch that holds it |
| `RightsizingBatches.ExpectedIsQueried` | internal/store/rightsizing.go:69-75 | the batch count stored with a report is the number of queries |

## Left out

- Texts of errors and warnings: a failed parse is its position, a warning its kind.
- Bytes: the text of a filter is a sequence of characters, of which bytes are a part; lower-casing is ASCII's, which is all that reaches it.
- `ParseFloat` rounding and overflow in quantities: an amount is the exact decimal.
- Regular expression and LIKE matching, casts and comparisons of the database: parameters.
- `FilterSql.Shown`: prints only strings, because only a string literal can follow `like`.
- Squirrel and DuckDB internals, transactions, and errors of the database other than a violated key.
- A builder that never ends: then a select that never takes a ready stop could go on for ever, so that Stop returns only if stops are taken; `StopMayBePassedOver` shows the loop, `StopNeedsNoUnits` gives the step that takes the stop.
- Futures other than their one result: `future.Stop` only cancels a context the model does not have.
- Values in `Pipeline2`: state, result and error of its progress record; the shutdown and cancellation laws do not depend on them.
- Pool2Protocol: runs begin where Start succeeds; the calls that answer at once (unknown key, done pipeline) change nothing and are no steps of the machine.
- Panics of a builder or a status function, which end the process.
- `GroupTables.GroupStore.RefreshMatches`: with no identifiers it takes the groups in table order where the source orders by ID; `OrderDoesNotMatter` says when that is the same.
- GroupStore's Create, Update, Delete, Count, the unique name, inventory and timestamps: single statements on one table, easy members.
- Columns of the VM list beyond identifiers and sort keys, and the services between handler and store.
- ON CONFLICT DO NOTHING, cluster names shared by several clusters, and disk and confidence percentages in the utilization query.
- A batch size of zero or less in QueryMetrics, on which its loop does not advance; CreateReport refuses it.
- Handlers, clients, crypto, credentials, outbox, offload, services and the older Pool: plumbing or easy members.
