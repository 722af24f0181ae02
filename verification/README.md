# A verified model of git-ci

git-ci turns CI workflow files into job graphs and runs them. This project models its core in
Dafny and proves what that core is for:

- **The job graph.** Reusable workflows are inlined into the graph of their caller
  (`ReusableWorkflows`; `ReusableLimits` says when that succeeds, over the chains of calls the files
  contain), matrix jobs become variants with every dependency rewritten
  (`MatrixJobs`), and the result is put in order by a Kahn loop with a sorted ready list, with a
  depth-first search that explains a failure (`TopologicalOrder`). Dependency levels are computed
  three more times, by a FIFO queue, by peeling (`DependencyLevels`) and by a memoised recursion
  (`GraphRows`); `Graphs` defines walks, cycles and levels once for all of them.
- **The run.** `RunMachine` models one call of the run loop on what the store holds, the walk that
  never pauses, and whole histories of pauses and plays; `RunOutcome` says what a run comes to;
  `RunVerdicts` says what rules, conditions and `when` mean for the record of a job;
  `RunManager` is the imperative loop over the store.
- **The condition language.** `ConditionLexer`, `ConditionParser` and `ConditionMeaning` hold the
  lexer and the recursive descent parser as objects with a cursor, the grammar they accept
  (`ConditionTokens` has that of the single tokens), a
  printer, the evaluator, and the two places that build conditions by pasting text;
  `ConditionLaws` says on texts what each operator and function means;
  `ConditionContracts` says what pasting does to the conditions a run evaluates.
- **Matrices.** `Cartesian` is the product with its division guard, `Matrix` the exclude and
  include rules and the numbered variants, `Quoting` the canonical form that detects duplicates.
- **The log.** `Redaction`, `CommandSyntax` and `WorkflowCommands` are the line processor with its
  masks, stop tokens and sections; `CommandGrammar` says which lines spell which command and
  `CommandLaws` what a line does, effect by effect and over whole runs; `LogSections` is the tree a page shows and the forest the lines
  meant; `PageLaws` says what a page shows whatever the store holds; `LogCapture` stores what the
  processor says; `LogPage` builds the tree out of objects.
- **Files and templates.** `RuntimeFiles` holds the two parsers of step files, `Templates` the two
  ways of filling `${{ name }}`.

Code that works step by step (loops, cursors, memo tables, stacks, group objects) is imperative
here too: each such method is proved equal to a function or against a property, and the theorems
are about those. `Text`, `Search` and `Decimal` hold strings as Go uses them.

Some promises hold only under a condition. The condition is then part of the theorem:

- A workflow is inlined exactly if every call that some chain of calls reaches can be made and at
  most fifty files are read; a refusal gives a reason that is true at or behind the job it names.
- Composite conditions paste to a conjunction exactly if neither text is an empty `${{ }}`;
  reusable-workflow conditions exactly if neither is wrapped in `${{ }}` at all. As a run evaluates
  them, with the success they ask for implicitly, pasting is conjunction exactly if success is
  there, both or neither name a status function, or one of the two is not met.
- Pausing changes the result of a run exactly if the never-pausing walk succeeds and some failure
  is misread in front of a job the walk starts or holds: a failure that only a rule gave leave to,
  or a tolerated exit code of a job that was a blocking hold. `RuleAllowanceIsForgotten` is such a run.
- A mask is left in no output, whatever the other masks, exactly if it has no star at either end
  and no three stars in a row.
- A line that closes a section can show a mask that was added while the section was open, and no
  other; `ClosingShowsLaterMask` is one.
- A value and its words are all masked exactly if the value is neither empty nor too long and there
  is room for those that are new; without room the add still says whether it took the value.
- A workflow command reads back exactly if its last property value ends in no blank that the escapes
  leave alone.
- Rescanning a template ends where the single pass ends, and as it ends, exactly if every name is
  there as written and the text the pass writes has no opening; `RescanNeverEnds` never ends, and
  `SameFailureElsewhere` fails alike at another place.
- Two jobs share a key exactly if one is literally named like a variant of the other, a matrix job.
- A dimension name with surrounding blanks is trimmed before it is looked up and then stands for one
  empty value; the product is proved for all names, and `CleanNames` says what trimmed names give.

Verify with `dafny verify dfyconfig.toml`.

## Model

| member | source | states |
|---|---|---|
| `TopologicalOrder.DeterministicTopologicalOrder` | internal/execution/discovery.go:1510-1566 | It succeeds exactly when no dependency is missing and the graph is acyclic, and then returns the least of all topological orders, keys being compared as in a dictionary; otherwise it names a real missing dependency or a real cycle, and the empty explanation cannot occur. |
| `Text.LessIs` | internal/execution/discovery.go:1568-1577 | The comparison of keys is dictionary order: a proper prefix comes first, or the smaller character at the first difference. |
| `TopologicalOrder.CountDependencies` | internal/execution/discovery.go:1511-1535 | Counting stops at a dependency that is really missing, or yields for every job the number of its distinct dependencies and the exact inverse lists. |
| `TopologicalOrder.KahnLoop` | internal/execution/discovery.go:1537-1559 | The emitted prefix always has dependencies first and takes the least available job; the loop emits all jobs or the graph has a cycle. |
| `TopologicalOrder.GreedyIsLeast` | internal/execution/discovery.go:1545-1556 | A topological order that always takes the least available job is the least topological order. |
| `TopologicalOrder.CycleFinder.FindDependencyCycle` | internal/execution/discovery.go:1579-1623 | The search returns a closed walk along real dependency edges, or nothing, and nothing only for an acyclic graph. |
| `TopologicalOrder.CycleFinder.Visit` | internal/execution/discovery.go:1590-1611 | Visiting a key leaves the stack as it was and the key finished after its dependencies, or returns a cycle. |
| `Graphs.LevelIsLongestWalk` | internal/handlers/toposort.go:90-126 | The level of a job is the length of the longest dependency walk from it: no walk is longer and one is as long. |
| `Graphs.LevelsUnique` | internal/handlers/toposort.go:90-126 | A numbering in which every job is one above its deepest dependency exists only on acyclic graphs, and is then the levels. |
| `DependencyLevels.TopologicalSort` | internal/handlers/toposort.go:12-68 | The queue succeeds exactly on acyclic graphs; its output is a topological order of non-decreasing level whatever order the map gives, and on failure the named jobs each depend on one of them. |
| `DependencyLevels.GroupByDependencyLevel` | internal/handlers/toposort.go:72-127 | Peeling succeeds exactly on acyclic graphs, and places every known job once, in the group of its level. |
| `DependencyLevels.SortLinearisesGroups` | internal/handlers/toposort.go:12-127 | The queue's order is the groups one behind the other: the jobs of a group stand in one stretch, in the place its predecessors leave. |
| `GraphRows.BuildGraphRows` | internal/httpapi/execution_web.go:1089-1132 | For every input the rows lay the jobs out by one level map, each job in the row of its level; on an acyclic graph that map is the longest-walk levels, so it agrees with the peeling rounds. |
| `GraphRows.LevelMemo.LevelOf` | internal/httpapi/execution_web.go:1094-1117 | The memoised recursion keeps what it knew, ends on cyclic graphs too, and returns the level on acyclic ones. |
| `ReusableWorkflows.ReusableExpansionState.ExpandPipeline` | internal/execution/reusable_workflow.go:65-139 | The loop over callers with its stack of files computes the expansion that the theorems are about, and restores the stack when it succeeds; it ends because the depth is bounded. |
| `ReusableLimits.ExpansionSucceedsExactly` | internal/execution/reusable_workflow.go:65-139 | For every repository, workflow, depth and stack: the expansion succeeds exactly if every call that a chain of calls reaches is no matrix job, is accepted, is at most ten levels deep, reads a file that is there, has jobs and is not open already, and brings no key that is taken, and at most fifty files are read in all. It then has exactly the jobs at the ends of such chains and has read exactly the files along them; a refusal gives a reason that is true of a call at or behind the job it names. |
| `ReusableWorkflows.ExpandIsSound` | internal/execution/reusable_workflow.go:65-139 | If the caller's graph and every called graph are acyclic with resolved dependencies, so is the expanded graph, and it is the rewriting of an inlining that replaces every local call by the expansion of the file that call names. |
| `ReusableWorkflows.ExpansionPreservesOrder` | internal/execution/reusable_workflow.go:65-139 | The expanded workflow names no replaced caller and keeps every other job; behind each caller stand all jobs of the expansion of the file it names, with its edges; and whatever stands for a job reaches, over real edges, whatever stands for each of its dependencies. |
| `ReusableWorkflows.ExpansionIsOne` | internal/execution/reusable_workflow.go:65-139 | What a file expands to does not depend on the depth, the chain of callers or the files read before, so "the expansion of the file" is one workflow. |
| `ReusableWorkflows.OrderPreserved` | internal/execution/reusable_workflow.go:121-137 | One edge of the caller graph becomes a walk between any job standing for its dependant and any job standing for its dependency. |
| `ReusableWorkflows.ExpandReusableCall` | internal/execution/reusable_workflow.go:287-353 | The children carry the caller's dependencies in front of renamed sibling dependencies, and the terminals are the children no sibling names. |
| `ReusableWorkflows.TerminalsAre` | internal/execution/reusable_workflow.go:287-353 | The terminals, each once and in order, are the called jobs that no called job needs or requires. |
| `ReusableWorkflows.RewriteContains` | internal/execution/reusable_workflow.go:439-458 | A rewritten list holds exactly the names that are not replaced and the replacements of those that are. |
| `ReusableWorkflows.NamespacedContains` | internal/execution/reusable_workflow.go:460-470 | For all values, renaming puts the dependencies on siblings under the caller's prefix and keeps every other as written. |
| `MatrixJobs.NormalizeDependencies` | internal/execution/discovery.go:606-678 | Normalisation succeeds exactly when every missing dependency is an optional need and the source graph on existing jobs is acyclic; then every variant of a dependency comes before every variant of a dependant, and optional flags stand only on existing needs. |
| `MatrixJobs.SourceAcyclicLifts` | internal/execution/discovery.go:606-678 | If the source graph is acyclic, the graph of the variants is. |
| `MatrixJobs.VariantAcyclicDrops` | internal/execution/discovery.go:606-678 | If the graph of the variants is acyclic, the source graph is. |
| `MatrixJobs.ExpandDependencyKeys` | internal/execution/discovery.go:997-1007 | The expanded list is ascending and holds exactly the variants of known keys and the unknown keys themselves. |
| `MatrixJobs.ExpandOptionalNeeds` | internal/execution/discovery.go:1009-1025 | A variant is optional exactly if one of the keys it matches is. |
| `MatrixJobs.PruneMissingOptional` | internal/execution/discovery.go:1027-1036 | Exactly the optional needs that exist nowhere are dropped. |
| `RunMachine.DependencyState` | internal/execution/manager.go:1605-1624 | Ready, successful and failed mean: all dependencies have a status; each lets the job pass; one failed without leave. |
| `RunVerdicts.FoundExactly` | internal/execution/manager.go:1605-1624 | A job finds a failure exactly if a dependency failed without leave, and success exactly if each succeeded, failed or stayed held with leave, or was skipped and is optional; never both. |
| `RunVerdicts.MissingExactly` | internal/execution/manager.go:1447-1451 | A job with readable semantics is told that a required job has not completed exactly if a dependency has no status yet. |
| `RunMachine.PausesAreTransparent` | internal/execution/manager.go:458-629 | If no failure is misread in front of a job the walk can stop at, then however often a run stopped at holds, approvals or timers and was taken up again from the store, once it finishes it has the statuses and the result of the walk that never pauses. |
| `RunMachine.TransparentExactly` | internal/execution/manager.go:458-629 | Every history that finishes has the result of the never-pausing walk exactly if that walk fails, or no failure is misread in front of a job it can stop at; otherwise some history finishes and fails. |
| `RunMachine.MisreadExactly` | internal/execution/retry.go:138-166 | A failure is misread exactly if only a rule gave it leave, or it was a tolerated exit code of a job that was a blocking hold. |
| `RunMachine.TaintedDrive` | internal/execution/manager.go:479-624 | From a store with a failure that reads back without leave, no history succeeds. |
| `RunMachine.StableRemembers` | internal/execution/manager.go:1440-1523 | Nothing is misread in a run in which no rule that starts a job adds allow_failure and no job that can block has exit codes. |
| `RunMachine.HistoriesAgree` | internal/execution/manager.go:458-629 | Two histories of such a run that both finish end with the same statuses and the same result. |
| `RunMachine.AnsweredRunsFinish` | internal/execution/manager.go:458-629 | In every run, if every hold is played and nothing is gated, one call more than there are jobs finishes it; where nothing is misread in front of a stop, with that result. |
| `RunMachine.WalkInStep` | internal/execution/manager.go:479-624 | From any store consistent with the never-pausing walk whose failures read back right, a call ends with its result or stops at a job the walk can stop at, no earlier than where it began, and leaves a store still consistent with it. |
| `RunMachine.VerdictSurvivesExactly` | internal/execution/retry.go:138-166 | The verdict on a failure is the same when it is read back, for every exit code, exactly if an unheld job got its allow_failure from itself and a held one tolerates everything or has no exit codes. |
| `RunMachine.RuleAllowanceIsForgotten` | internal/execution/manager.go:481-519 | A concrete run that succeeds without pauses and fails after one, because a rule's allow_failure is not persisted. |
| `RunMachine.HeldAgain` | internal/execution/manager.go:1525-1541 | A job that was held decides, with its stored manual state, to hold again or, once played, to run with the allowance of that state. |
| `RunOutcome.NothingUnfinished` | internal/execution/manager.go:1447-1451 | Walking jobs in topological order, no job the walk comes to is told that a required job has not completed, whatever the store holds and whatever is gated. |
| `RunOutcome.FailureSkipsWhatHangsOnIt` | internal/execution/manager.go:479-624 | With default conditions a job is skipped exactly when dependencies lead to it from a failure that is not allowed, none optional but perhaps the first; every other job ran; the run succeeds exactly when no job failed without leave. |
| `RunOutcome.FirstRuleDecides` | internal/execution/manager.go:1466-1500 | The first rule that is not passed over decides, whatever stands behind it; with none the job is skipped. |
| `RunVerdicts.DecidesAsSaid` | internal/execution/manager.go:1440-1541 | The decision is the verdict of the semantics on what the dependencies came to: conditions, the first rule not passed over and its `when`, file tests, ref selectors and the `when` of the job are told case by case. |
| `RunVerdicts.HistoryExplained` | internal/execution/manager.go:479-624 | Over every history, whatever is read back right or wrong: a job has an attempt only if its semantics can start it, or hold it and it was played; it was held only if they can hold it; it is skipped, without an attempt, only if they can skip it; and when the history finishes every job is settled as recorded. |
| `RunVerdicts.BarredNeverRuns` | internal/execution/manager.go:1440-1523 | A job that never, delayed, a file test, a condition that cannot be evaluated or a ref selector bars is never executed, whatever executing it would come to, and every history that finishes leaves it skipped. |
| `RunVerdicts.HeldRunsOnlyWhenPlayed` | internal/execution/manager.go:1525-1541 | A job that is only ever to be held runs only once it was played. |
| `RunVerdicts.EndsAsSaid` | internal/execution/manager.go:479-624 | Where nothing is misread in front of a stop, a history that finishes leaves each job as its verdict on the statuses before it says: skipped, held without blocking, or executed with its outcome, after a play if it was a blocking hold. |
| `RunVerdicts.PausesAsSaid` | internal/execution/manager.go:479-624 | A call that stops leaves the job it stops at waiting, if that is gated, or held, with no new attempt, and every job behind it as the store had it. |
| `RunOutcome.StartsOnlyAfterSuccess` | internal/execution/manager.go:1568-1593 | A job whose conditions name no status function starts or is held only when every dependency lets it pass. |
| `RunManager.Manager.ExecuteRun` | internal/execution/manager.go:458-629 | The loop over the store leaves exactly the store, and returns exactly the answer, of a pass over what the store held. |
| `RunManager.EvaluateJobExecution` | internal/execution/manager.go:1440-1523 | The early returns and the loop over rules compute the decision the theorems are about. |
| `RunManager.RunResult` | internal/execution/manager.go:617-624 | The loop over the statuses, in any order, finds a failure without leave exactly if there is one. |
| `ConditionParser.ParserIsExact` | internal/executionsemantics/condition.go:456-593 | Over every list of tokens closed by the end marker the parser ends and accepts with a tree exactly what the grammar derives with that tree: or below and below one comparison below not below primary, and and or to the left. |
| `ConditionParser.PrintThenParse` | internal/executionsemantics/condition.go:456-593 | The tokens of any tree written with the fewest parentheses parse back to that tree. |
| `ConditionParser.FitDerives` | internal/executionsemantics/condition.go:473-531 | A parenthesis of that form is there only where the operand could not stand without it. |
| `ConditionParser.ParseCondition` | internal/executionsemantics/condition.go:456-471 | The parser object with its cursor reads no token outside the list and returns what the parser over positions returns. |
| `ConditionLexer.Lexer.ReadAll` | internal/executionsemantics/condition.go:102-196 | The scanning loop with its cursor computes the tokens of the text, or fails where some character starts none. |
| `ConditionLexer.LexAppend` | internal/executionsemantics/condition.go:102-296 | Text that scans on its own scans the same in front of a closing parenthesis or a blank, and what follows scans as if it stood alone. |
| `ConditionLexer.PrintScanParse` | internal/executionsemantics/condition.go:102-593 | Printing a tree with quoted strings and fewest parentheses, scanning the text and parsing the tokens returns the tree. |
| `ConditionLexer.WritableExactly` | internal/executionsemantics/condition.go:102-593 | The trees this holds for are exactly those that some text parses to. |
| `ConditionLexer.TextRoundTrip` | internal/executionsemantics/condition.go:102-593 | Every text that parses to a tree has its tree survive being printed, scanned and parsed again. |
| `ConditionLexer.ScannedReadsBack` | internal/executionsemantics/condition.go:125-296 | Every token the scanner yields, names with a dollar sign, numbers and patterns included, has a spelling that scans to it alone. |
| `ConditionTokens.TokensExactly` | internal/executionsemantics/condition.go:102-310 | For every text: it begins with a token of some length exactly if that part of it is the token (a sign, a number, a name, a pattern, a quoted text with its escapes) and what stands behind it does not belong to it. |
| `ConditionTokens.LexExactly` | internal/executionsemantics/condition.go:102-196 | For every text: scanning yields exactly the tokens the text spells with white space around them. |
| `ConditionTokens.LowerExactly` | internal/executionsemantics/condition.go:176-183 | Lowered, a text is a word of small letters exactly if it is that word in some letter case, two characters beyond ASCII included. |
| `ConditionLaws.TextsExactly` | internal/executionsemantics/condition.go:102-593 | For every text: it compiles to a tree exactly if, taken apart into tokens and white space, it is a sentence of the grammar with that tree. |
| `ConditionMeaning.PastedParses` | internal/executionsemantics/condition.go:102-593 | If two texts parse on their own, the pasted text parses to exactly the conjunction of their trees. |
| `ConditionMeaning.CompositeMeansConjunction` | internal/execution/composite_action.go:493-511 | The combined composite condition compiles exactly if neither text is blank inside its wrapping, and then evaluates in every context as the short-circuit conjunction. |
| `ConditionMeaning.ReusableMeansConjunction` | internal/execution/reusable_workflow.go:542-551 | The combined reusable condition compiles exactly if one text is blank or neither is wrapped, and then evaluates in every context as the short-circuit conjunction. |
| `ConditionLaws.NegationMeans` | internal/executionsemantics/condition.go:342-353 | For every text that compiles, the text negated compiles and evaluates to the opposite, or fails alike. |
| `ConditionLaws.ConnectivesMean` | internal/executionsemantics/condition.go:355-378 | Two texts joined by and, or by or, evaluate as the short-circuit connective of the two. |
| `ConditionLaws.ComparisonLaws` | internal/executionsemantics/condition.go:379-413 | Of two texts compared, unequal is the opposite of equal, no match of match, at most of greater and at least of less, and greater is less with the sides exchanged. |
| `ConditionLaws.EqualAndLess` | internal/executionsemantics/condition.go:640-689 | What equality, less and matching say of two texts is told by their values: null equals null alone, numbers go by size, and everything else by the text shown for it, in dictionary order, folded where letter case does not count; a pattern is one or is read from a text. |
| `ConditionLaws.StatusMeans` | internal/executionsemantics/condition.go:415-431 | The four status functions are the flags of the context, and true. |
| `ConditionLaws.TextFunctionsMean` | internal/executionsemantics/condition.go:432-453 | The functions contains, startsWith and endsWith say that the second text stands somewhere, first or last in the first, as they are shown. |
| `ConditionLaws.LiteralsMean` | internal/executionsemantics/condition.go:312-340 | A text that is one literal or one name has that value. |
| `ConditionLaws.WordsShown` | internal/executionsemantics/condition.go:640-654 | Compared with a text, truth values and numbers go by the words and numerals that are shown for them, and null equals no text. |
| `ConditionLaws.MetExactly` | internal/executionsemantics/condition.go:623-638 | A text that evaluates is met exactly if its value is none of null, false, zero and the empty text. |
| `ConditionContracts.HoldsIs` | internal/execution/manager.go:1568-1593 | A condition that compiles holds in a run exactly if it is met and success is there or waived by a status function. |
| `ConditionContracts.PastedStatus` | internal/execution/manager.go:1595-1603 | Pasted text names a status function exactly if one of the two texts does. |
| `ConditionContracts.CompositeContract` | internal/execution/manager.go:1568-1593 | The combined composite condition holds whenever both hold, and only then exactly if success is there, both or neither waive it, or one of the two is not met. |
| `ConditionContracts.ReusableContract` | internal/execution/manager.go:1568-1593 | The same for conditions combined for a reusable workflow. |
| `Cartesian.CartesianValues` | internal/executionsemantics/matrix.go:272-311 | The loop accepts exactly usable dimensions whose full product is at most 64, and then returns every choice, at its rank, each place being the rank of one choice and of no other; the other errors are told apart. |
| `Cartesian.GuardIsExact` | internal/executionsemantics/matrix.go:297-299 | The guard that divides rejects exactly when the multiplied count would exceed the limit. |
| `Cartesian.RankIsLexicographic` | internal/executionsemantics/matrix.go:287-309 | Choices are returned in the lexicographic order of their index tuples. |
| `Cartesian.RankOnto` | internal/executionsemantics/matrix.go:287-309 | Every place of the result is the rank of a choice. |
| `Cartesian.PickedCoordinates` | internal/executionsemantics/matrix.go:301-306 | With distinct names a choice has exactly the chosen value under every name. |
| `Cartesian.CleanNames` | internal/executionsemantics/matrix.go:279-287 | Names without surrounding blanks are used as they are, in ascending order. |
| `Matrix.ApplyIncludes` | internal/executionsemantics/matrix.go:218-245 | The include loops return every surviving combination overlaid by its compatible includes, then the unmatched ones, or the limit error exactly when that would be more than 64. |
| `Matrix.OverlaidCoordinate` | internal/executionsemantics/matrix.go:228-238 | No original coordinate ever changes; any other coordinate is that of the last compatible include that has the key. |
| `Matrix.KeptExactly` | internal/executionsemantics/matrix.go:206-241 | A place survives the excludes, or an include is appended, exactly if no exclude matches it, or no original is compatible with it. |
| `Matrix.KeptInOrder` | internal/executionsemantics/matrix.go:206-241 | Survivors and appended includes keep their order and are not modified. |
| `Matrix.SurvivesExactly` | internal/executionsemantics/matrix.go:206-216 | A combination survives exactly if it differs from every exclude somewhere, what it lacks reading as empty. |
| `Matrix.AppendedExactly` | internal/executionsemantics/matrix.go:218-245 | An include is appended exactly if every original has another value under a key of it. |
| `Matrix.PartialMatch` | internal/executionsemantics/matrix.go:386-393 | An exclude matches when each of its values is the combination's, a missing coordinate reading as empty. |
| `Matrix.ExpandGitHubMatrix` | internal/executionsemantics/matrix.go:186-247 | The whole strategy: product, exclude, include, with each error where the source raises it. |
| `Matrix.ExpandGitLabMatrix` | internal/executionsemantics/matrix.go:249-262 | The products of the groups one behind the other, or the first group that fails or is too many. |
| `Matrix.ConcatInOrder` | internal/executionsemantics/matrix.go:249-262 | Each product stands behind those of the groups before it. |
| `Matrix.NumberVariants` | internal/executionsemantics/matrix.go:56-75 | Combinations are numbered exactly when there are some, at most 64 and pairwise distinct. |
| `Matrix.ExpandMatrix` | internal/executionsemantics/matrix.go:26-75 | The source that asks for combinations is chosen in the order of the source's cases, and its error or its numbered variants are returned. |
| `Matrix.ParallelIsDistinct` | internal/executionsemantics/matrix.go:37-47 | The nodes of a parallel total are pairwise distinct, so no total within the limit is refused. |
| `Matrix.NodesAreTold` | internal/executionsemantics/matrix.go:37-47 | Each node of a parallel total is told its own place and the total. |
| `Matrix.VariantKeysDistinct` | internal/executionsemantics/matrix.go:100-105 | The variants of one job have pairwise distinct job keys. |
| `Matrix.KeysCollide` | internal/executionsemantics/matrix.go:100-105 | Jobs of different names share a key exactly if one stands alone under the name the other gives to that variant. |
| `Quoting.CanonicalInjective` | internal/executionsemantics/matrix.go:395-405 | Two sets of coordinates have the same canonical form exactly if they are equal. |
| `Quoting.EscapeRoundTrip` | internal/executionsemantics/matrix.go:395-405 | Every quoted character can be decoded from the text it starts, whatever follows. |
| `Redaction.RedactionIsComplete` | internal/execution/workflow_command.go:290-297 | For any order of masks, the output contains no firm mask: no later replacement brings an earlier mask back. |
| `Redaction.SafeExactly` | internal/execution/workflow_command.go:290-297 | A mask is left in no output, whatever the other masks and the text, exactly if it is firm: no star at either end, no three stars in a row. |
| `Redaction.RedactionIsIdempotent` | internal/execution/workflow_command.go:290-297 | With firm masks, redacting redacted text changes nothing. |
| `Redaction.RedactSecrets` | internal/execution/manager.go:1978-1990 | No firm secret is left in the output, and text without secrets is unchanged. |
| `CommandSyntax.CommandRoundTrip` | internal/execution/workflow_command.go:299-359 | A printed command within the size limit parses back to its name, properties and data exactly if its last property value ends in no bare blank. |
| `CommandSyntax.CommandReadsBack` | internal/execution/workflow_command.go:299-332 | In every case it parses back, the last value losing only the bare blanks at its end. |
| `CommandSyntax.DecodeEscape` | internal/execution/workflow_command.go:334-359 | Decoding undoes the percent escapes of every text. |
| `CommandGrammar.DecodedExactly` | internal/execution/workflow_command.go:334-359 | For every text: decoding yields the characters that its pieces mean, each piece being an escape or a character at which no escape begins, and nothing else. |
| `CommandGrammar.PropertiesExactly` | internal/execution/workflow_command.go:322-330 | For every list of items: the properties are there exactly if each item gives one, and a key has the value it is given last. |
| `CommandGrammar.ParseExactly` | internal/execution/workflow_command.go:299-332 | For every line: the parser accepts exactly what spells a command (two colons, a header, the next two colons, data) and reads the name, properties and data that it spells. |
| `CommandSyntax.ParseWorkflowCommand` | internal/execution/workflow_command.go:299-332 | The parser with its loop over properties computes the parse the round trip is about. |
| `WorkflowCommands.AddMaskKeepsGood` | internal/execution/workflow_command.go:263-288 | Also where there is no room: adding a mask adds only the value and its words, keeps masks distinct and not empty and the dynamic ones at most 100, and leaves them sorted by length unless the limit was reached. |
| `WorkflowCommands.AddMaskExactly` | internal/execution/workflow_command.go:263-288 | Where there is room, exactly the value and each of its words become masks beside those there were, dynamic or not, sorted by falling length, and the count of dynamic masks goes up by those that are new. |
| `WorkflowCommands.FieldsAreWords` | internal/execution/workflow_command.go:267 | The words of a value are its longest pieces without white space. |
| `CommandLaws.AddMaskAccepts` | internal/execution/workflow_command.go:263-288 | A dynamic add is accepted, and its value masked, exactly if the value is neither empty nor too long and is masked already or not all dynamic masks are used. |
| `WorkflowCommands.MaskedFromThenOn` | internal/execution/workflow_command.go:89-288 | Over every run: after an add-mask line that meets no limit, no later logged line shows the value or a word of it that is firm, apart from fixed texts and lines that close a section opened before. |
| `WorkflowCommands.WorkflowCommandState.WithSecrets` | internal/execution/workflow_command.go:64-72 | In whatever order the secrets are taken, each that is not too long is masked from the start, and each word of it. |
| `WorkflowCommands.RunKeepsValid` | internal/execution/workflow_command.go:89-220 | Over every run of lines masks stay distinct, limits hold, and each step's open sections stand at depths 0, 1, 2 and so on under distinct ids. |
| `WorkflowCommands.LoggedLinesAreRedacted` | internal/execution/workflow_command.go:89-188 | A logged line shows no firm mask of the moment unless it is a fixed text or closes a section. |
| `WorkflowCommands.RunIsRedacted` | internal/execution/workflow_command.go:89-220 | Over every run, a logged line is a fixed text, shows no firm mask present when it came, or closes a section and shows no firm mask that was present when an earlier line of the step opened that section. |
| `WorkflowCommands.ClosingShowsLaterMask` | internal/execution/workflow_command.go:163-185 | A section is opened, its name is masked, and the line that closes it is logged with the mask. |
| `WorkflowCommands.StoppedLinesDoNothing` | internal/execution/workflow_command.go:96-102 | Between a stop token and its return lines are logged, redacted, and nothing changes. |
| `CommandLaws.TokenAndMasksExactly` | internal/execution/workflow_command.go:89-152 | A stop token is set by a stop-commands line with a good token and taken back by its return, and by nothing else; masks are added by add-mask with the limit, by a stop token longer than six bytes without it, and by nothing else. |
| `CommandLaws.SectionsExactly` | internal/execution/workflow_command.go:103-220 | For every state and line: a section is opened exactly if the line asks for one and its name, the depth and the count admit it, and closed exactly if it is the innermost and the line is of its provider and names it or none. |
| `CommandLaws.ClosedAsOpened` | internal/execution/workflow_command.go:103-220 | Over every run, a line that closes a section may close it, and an earlier line of the same step asked for it under its name. |
| `CommandLaws.RunAnnotatesExactly` | internal/execution/workflow_command.go:153-166 | Over every run, a line annotates its step exactly if it is heard as a command that gives an annotation and fewer than fifty lines annotated the step before. |
| `CommandLaws.LoggedExactly` | internal/execution/workflow_command.go:89-188 | What stands in the log: the name of the section that is opened or closed, a notice that none is, the bare name of a masking command even if it is malformed, stars for a returned stop token, and for every other line the line, redacted. |
| `CommandLaws.DiagnosticExactly` | internal/execution/workflow_command.go:89-188 | A line has a diagnostic exactly if it is refused, and the diagnostic tells which of nine reasons holds. |
| `CommandLaws.StripLaws` | internal/execution/workflow_command.go:426-441 | Stripping drops each control sequence as a whole, an unfinished one to the end, and every other invisible character, and keeps everything else. |
| `WorkflowCommands.WorkflowCommandState.AddMaskLocked` | internal/execution/workflow_command.go:263-288 | The method leaves exactly the new masks and count, also when it returns early. |
| `WorkflowCommands.WorkflowCommandState.ProcessLine` | internal/execution/workflow_command.go:89-188 | One atomic step on the fields: state and outcome are those of the processed line. |
| `LogCapture.EventsAreNested` | internal/execution/workflow_command.go:190-220 | The section events of a step are well nested: opened at the depth of the stack, under ids used once, and only the innermost is closed. |
| `LogCapture.StepLogRoundTrip` | internal/httpapi/log_sections_web.go:10-68 | Whatever the lines of a job were, the page built from the stored lines and sections of a step is the forest its events meant, and flattened it is the plain lines, once each and in order. |
| `LogCapture.StepLog.CaptureLines` | internal/execution/manager.go:1245-1288 | Capturing lines stores exactly the lines and sections that the processed lines record, diagnostics included. |
| `LogSections.BuildsTheForest` | internal/httpapi/log_sections_web.go:10-68 | For every well-nested record with rising sequence numbers the builder returns the forest that reading the record by recursive descent gives. |
| `LogSections.ParseFlattens` | internal/httpapi/log_sections_web.go:36-67 | The leaves of the entries are the plain lines they span, so each group holds what lay between its markers or to the end, and its line count is the number of leaves beneath it. |
| `LogSections.GroupEndsWithItsClose` | internal/execution/workflow_command.go:209-220 | The close a group ends with is that of its own section. |
| `PageLaws.PageReadsOut` | internal/httpapi/log_sections_web.go:10-68 | Whatever lines and sections the store holds, the page reads out, line by line, the headings of the sections that start there or else the line, each once; and every group counts the lines in it. |
| `PageLaws.SortRowsExactly` | internal/httpapi/log_sections_web.go:11-17 | Sections come in the order of their starts, then of their depths, and otherwise as the store lists them. |
| `LogPage.BuildStepLogEntries` | internal/httpapi/log_sections_web.go:10-68 | For all inputs, the group objects filled through the stack represent exactly the trees of the value-level builder, line counts included. |
| `RuntimeFiles.FileRoundTrip` | internal/execution/runtime_command_files.go:138-190 | A printed file of NAME=value lines, heredocs with delimiters that are no line of their value, and blank lines, with valid names and CR-free values, parses back to the last-wins map in both parsers; more than 256 entries are refused by the first. |
| `RuntimeFiles.EnvAcceptsExactly` | internal/execution/runtime_command_files.go:138-179 | The environment parser accepts a file exactly if it spells, line by line, blanks, NAME=value lines and heredocs with good names, and then returns what it spells. |
| `RuntimeFiles.NamesExactly` | internal/execution/runtime_command_files.go:181-190 | Good names are told by their characters; a variable is none of those reserved for the runner, in any letter case. |
| `RuntimeFiles.OutputAcceptsExactly` | internal/execution/output_command.go:280-307 | The same for the output parser. |
| `RuntimeFiles.ParsersAgree` | internal/execution/output_command.go:280-307 | Every CR-free file the environment parser accepts is read to the same map by the output parser. |
| `RuntimeFiles.ParseGitHubEnvironment` | internal/execution/runtime_command_files.go:138-179 | The loops over lines and inside heredocs compute the parse the round trip is about. |
| `RuntimeFiles.ParseGitHubOutput` | internal/execution/output_command.go:280-307 | The same for the output parser, which trims each line only to compare it. |
| `Templates.RescanIsOnePass` | internal/execution/manager.go:1866-1883 | Over all templates and values, rescanning ends where the single pass ends and with its result, success or failure, exactly if every name is there as written and the text the pass writes has no opening; it then takes one round more than there are openings. |
| `Templates.RescanSucceedsExactly` | internal/execution/manager.go:1866-1883 | Where the single pass succeeds, rescanning comes to that text exactly if every name is there as written and the text has no opening. |
| `Templates.StraightIsOnePass` | internal/execution/manager.go:1866-1883 | Values that are not empty and free of the characters an opening is made of meet that condition. |
| `Templates.ResolveConcurrencyTemplate` | internal/execution/manager.go:1866-1883 | On every template for which the loop ends it returns what rescanning comes to; under that condition the result of the single pass. |
| `Templates.ResolveStaticTemplate` | internal/executionsemantics/matrix.go:114-136 | The single pass with its builder returns the text with every opening replaced once. |
| `Templates.RescanNeverEnds` | internal/execution/manager.go:1866-1883 | A value that opens a template again is rescanned for ever. |

## Left out

- DeterministicTopologicalOrder: job keys are required to be distinct. The source appends them to a slice, and `KeysCollide` says when discovery repeats one, as with a job named `a[01]` beside a matrix job `a`; what the ordering then does is not modelled.
- CountDependencies: the same; a key list with repetitions is not modelled.
- NormalizeDependencies: variants are given with keys that are not blank and belong to one source job, and names of needs without surrounding blanks; `ExpandDependencyKeys` and `ExpandOptionalNeeds` are proved for all names. The templates inside a variant's other fields are not modelled.
- ExpandPipeline: inputs, secrets, permissions and templates of a call, and the files behind references, are not modelled; a call is a path into a given repository of workflows, and whether its contract resolves is given.
- ExpandReusableCall: conditions, names, environment and continue-on-error of the children are not modelled, only their dependencies; what pasting conditions does is in `ConditionContracts`.
- LoggedLinesAreRedacted: closing lines are exempt here and covered by `RunIsRedacted`. A fixed text is logged as it is, also when a mask occurs in it.
- RedactSecrets: nothing is promised of a secret that is not firm; by `SafeExactly` nothing could be for all secrets beside it.
- RedactionIsIdempotent: stated for firm masks; some lists with other masks are idempotent too.
- ProcessLine: GitLab section markers are recognised by a given function, and the numbers of annotation positions are only checked.
- FailureSkipsWhatHangsOnIt: stated for default conditions; other conditions are covered by the decision lemmas only.
- PausesAreTransparent: optional manual jobs played after the run has passed them, cancellation, child pipelines and failed deployment preparation are not modelled; a job's outcome and a condition's value depend on the run only through dependency statuses.
- ExecuteRun: child pipelines, cancellation and the preparation of deployments are not modelled.
- EvaluateJobExecution: the reasons of a decision, rule variables and confirmation texts are not modelled.
- BuildStepLogEntries: the page view's fields other than ids, names, providers, colours, openness, entries and counts.
- CaptureLines: the two streams of a step are interleaved line by line; a failure to store a line, a section or an annotation is not modelled.
- RescanIsOnePass: where the pass fails, the condition is about the place of the failure too; a loop that gives up elsewhere can still report the same error.
- ResolveConcurrencyTemplate: required to start from a template for which the loop ends; `Rescan` models the loop on every template. Not modelled are the replacements behind the loop and the normalisation of the group name.
- EqualAndLess: the number a numeral stands for, letter case, how numbers and patterns are shown and what a pattern matches are given functions of the evaluator, and so are `strconv.Atoi`, `strings.ToLower` in commands and `strings.EqualFold`; they are constrained only where a theorem says so.
- Invalid UTF-8: texts are sequences of characters, and byte limits are taken on their UTF-8 length.
- The SQLite store, leases, heartbeats and retries: a run's jobs are a map of records, and executing a job with its retries is one given outcome.
- Docker, processes, git, archives, YAML parsing, HTTP handlers and views other than the graph rows and the log tree.
- The path and summary files of a step, and the size limits on whole files.
- The older matrix expansion under internal/handlers.
