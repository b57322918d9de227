# AgentSpec: a verified model

AgentSpec reads declarative files about agents, skills and pipelines, checks and formats them, plans and
applies changes against a state file, and runs pipelines and `on input` blocks. This Dafny project models
the parts of it in which a mistake would be hardest to see, and proves what they promise for every input,
every run and every interleaving. `dafny verify dfyconfig.toml` checks the whole project.

Each component has functions or a state machine that say what it does, imperative classes and methods in
the form of the source proved equal to them, and theorems about them.

| component | modules |
|---|---|
| import graph: Tarjan's components, topological sort, dependency chains | `Digraph`, `TarjanInvariant`, `Imports` |
| pipelines: layering, drawing, concurrent and sequential execution | `Dag`, `Levels`, `Drawing`, `Pipeline`, `PipelineDeterminism`, `StepChaining` |
| `on input` blocks: lowering, validation, execution | `OnInput`, `ControlFlow`, `OnInputMeaning`, `ControlFlowExecutor`, `ControlFlowLaws`, `ValidationLaws` |
| `on input` text: lexer, parser, grammar, formatter, and their round trips | `Lexer`, `LexerLaws`, `Parser`, `OnInputParser`, `Grammar`, `Recognition`, `UnprintedForms`, `Formatter`, `Layout`, `Quoting`, `PrintedTokens`, `RoundTrip`, `CollectedText`, `Reformat` |
| name hints | `Suggest` |
| state file and its cache, plan and apply | `StateFile`, `StateCache`, `PlanApply` |
| conversation memory | `Memory` |
| rate limiting and blocking of addresses | `TokenBucket`, `AuthBlocks`, `RateLimiter` |
| recompilation that keeps user code | `SafeZones`, `WrappedCode` |
| sorting, trimming, option and result types | `Strings`, `Wrappers` |

How the outside world enters:

- Map iteration order is an arbitrary choice in the methods, so what they ensure holds for every order.
- Goroutines and lock sections are events of a state machine, so what is proved holds for every interleaving.
- In the concurrent executor the replies of the invoker are part of the run, so an invoker may answer the same
  call differently; where runs are compared, it is a function of agent, input and cancellation.
- Skills, agents, the expression evaluator, the adapter and the Unicode classes are
  arbitrary functions given as parameters. The lexer theorems assume that on ASCII the Unicode classes are
  the usual ones, and the stability theorem also that no letter or digit is white space.
- Times are parameters. The clock is assumed not to go back where a theorem says so.
- Failing system calls, crashes and writes by other processes are parameters of the state file.
- A file either parses to entries or does not. Strings in `Suggest` are sequences of bytes.
- Integers are unbounded, and the bucket's floating point is real arithmetic.

Where a promise does not hold of the code, the code is modelled as it is, and the exact condition is proved:

- Save can lose the readable state exactly when the main file is unreadable beside a readable backup,
  because it moves the unreadable file over the backup (`StateFile.CrashSafety`). A load repairs such a disk,
  but goes on when its restoring write fails, so a process that loads and saves is safe exactly when its last
  load did not leave such a disk (`StateFile.RoundSafety`, `StateFile.FailedRestoreLosesState`).
- A cache hit after an outside write is stale exactly when the write kept the cached time and changed the
  content (`StateCache.ReusedTimeIsStale`).
- Apply ignores a failing load and saves over the whole state: the next plan then creates every resource that
  was up to date again, and is right exactly when there was none (`PlanApply.ApplyAfterFailedLoad`).
- Sweeping out unused rate-limit buckets goes unnoticed exactly when TTL times rate is at least the burst
  (`TokenBucket.SweepingUnobservable`). A bucket evicted between the two critical sections of one request
  lets at most one request more pass for each take on an evicted bucket (`TokenBucket.OverlapBound`), and for
  every burst and every number of such takes there is a run that reaches this (`TokenBucket.EvictionRaceExceedsBurst`).
- A loop over a name that is already bound removes the variable exactly when its collection can be iterated, also
  over no items (`OnInputMeaning.ShadowingRemoves`).
- An empty session identifier ends the eviction loop: runs over a set of identifiers keep the session bound
  exactly when it is not among them or they are too few to reach it (`Memory.BoundedExactly`).
- The concurrent and the sequential executor agree for every trigger and invoker exactly when no step with an
  empty input follows, in a later layer, a step named `trigger` (`PipelineDeterminism.AgreeExactly`).
- Ten failures of an address within a minute block it exactly when each of them follows a check that let the
  address pass, as the middleware does it. A failure that comes without one after a block has run out keeps the
  old block in its entry, and the next check drops the entry with the count (`AuthBlocks.BlocksExactly`,
  `AuthBlocks.UncheckedFailureIsForgotten`).
- Recompiling a file changes no text outside the user parts except that it adds one newline at the end
  (`WrappedCode.RecompiledText`).
- An empty else is printed but comes back as no else (`RoundTrip.PrintThenParse`), and `%q` writes escapes
  the lexer does not decode (`PrintedTokens.ReadBackExactly`).

## Model

| member | source | states |
|---|---|---|
| Imports.Tarjan.StrongConnect | internal/imports/graph.go:208-244 | a call from any state of the invariant numbers v, keeps every emitted component a maximal mutually reachable set, and leaves on the stack exactly what can still reach an open call |
| Imports.Tarjan.ScanImports | internal/imports/graph.go:215-229 | after the loop the low link of v is the number of a stacked vertex that v reaches, and no edge out of v or of what was pushed above it enters an older stacked vertex with a smaller number |
| Imports.Tarjan.PopComponent | internal/imports/graph.go:231-243 | pops exactly the vertices from v to the top of the stack |
| TarjanInvariant.AboveIsComponent | internal/imports/graph.go:231-243 | if the low link of v is its own number, what stands from v upward is one strongly connected component, maximal in the whole graph |
| TarjanInvariant.ScanTreeEdge | internal/imports/graph.go:217-222 | taking the minimum with the low link of a finished import keeps the scanning invariant |
| TarjanInvariant.ScanBackEdge | internal/imports/graph.go:223-228 | taking the minimum with the number of an import on the stack keeps the scanning invariant |
| TarjanInvariant.Emit | internal/imports/graph.go:231-243 | emitting the popped vertices keeps the invariant of the whole search |
| TarjanInvariant.Stay | internal/imports/graph.go:230-244 | a call that emits nothing leaves everything it pushed able to reach an older open call |
| Imports.Components | internal/imports/graph.go:71-84 | for every graph, dangling imports and node order, each vertex is in exactly one component and every component is a maximal mutually reachable set |
| Imports.ComponentCycles | internal/imports/graph.go:86-106 | a vertex of a component lies on a cycle iff the component has two vertices or the vertex imports itself |
| Imports.DetectCycles | internal/imports/graph.go:71-108 | the result holds exactly the vertices on cycles, component by component and no vertex in two, and is empty iff the graph is acyclic |
| Imports.DepthFirstSort.Visit | internal/imports/graph.go:123-145 | on an acyclic graph the cycle error is never returned, and the list only grows, dependencies before dependents |
| Imports.TopologicalSort | internal/imports/graph.go:112-161 | succeeds iff the graph is acyclic; then every node and imported path is listed exactly once after all it depends on, in the one order that visiting the nodes in increasing order gives, whatever the map order |
| Imports.ChainSearch.Search | internal/imports/graph.go:169-191 | finds the target iff it is reachable along vertices not visited before; a found path appends only such vertices, and a failed search leaves the path as it was and a closed visited set |
| Imports.DependencyChain | internal/imports/graph.go:164-195 | returns a path without repetition from root to target, and nothing iff there is none |
| Digraph.SinklessCyclic | internal/pipeline/dag.go:111-113 | a non-empty set in which every vertex has a successor inside the set contains a cycle |
| Dag.BuildDAG | internal/pipeline/dag.go:26-65 | succeeds iff names are distinct, dependencies are known and the graph is acyclic; then every step is kept under its name and is in exactly one layer, the first one if it depends on nothing and otherwise the one after the last layer holding a dependency; layers are sorted, and counts and adjacency lists are those of the declared dependencies |
| Dag.LayeredSort | internal/pipeline/dag.go:70-116 | Kahn's algorithm, also with repeated dependencies, fails iff the graph is cyclic and otherwise gives the layering by longest chains |
| Dag.ProcessLayer | internal/pipeline/dag.go:93-108 | after a layer every in-degree counts the dependencies not yet done, and the next layer is exactly what became free |
| Dag.Release | internal/pipeline/dag.go:101-106 | decrementing once per edge queues a step exactly when its count reaches zero, once, however often an edge is repeated |
| Dag.LinkStep | internal/pipeline/dag.go:45-54 | fails iff a dependency is unknown or the step itself; otherwise counts and adjacency lists grow by exactly its edges |
| Dag.LayeringUnique | internal/pipeline/dag.go:70-126 | a graph has at most one layering with sorted layers, so the order does not depend on map iteration |
| Dag.LayeringAcyclic | internal/pipeline/dag.go:111-113 | only acyclic graphs have a layering |
| Strings.InsertionSort | internal/pipeline/dag.go:118-126 | the in-place loop gives a sorted permutation, for any weak order |
| Strings.LessExactly | internal/pipeline/dag.go:118-126 | the order of strings is that of the dictionary: the first difference decides, a proper prefix comes first |
| Strings.SortedKeys | internal/imports/graph.go:147-152 | collecting the keys of a map in any order and sorting gives the one increasing listing |
| Levels.LevelMemo.ComputeLevel | internal/graph/dot.go:187-203 | the memoised recursion returns the longest dependency chain and keeps every stored level so |
| Levels.GroupByDepLevel | internal/graph/dot.go:179-221 | level l holds exactly the steps whose longest chain has l edges, in input order and as often as given |
| Levels.LevelsAreLayers | internal/graph/dot.go:179-221 | levels of the renamed dependency graph are, as sets, the layers of that graph |
| Drawing.ExtractPipeline | internal/graph/extract.go:272-305 | the loops give a node step:pipeline.name for every step in order, and the edges are exactly the one from the pipeline to each step, from each step to its agent, and between a step and each dependency, with their kinds |
| Drawing.EdgesAre | internal/graph/extract.go:272-305 | the same said of the edges as a function of the steps |
| Drawing.StepDeps | internal/graph/dot.go:121-125 | the loop over the edges gives each step the list of its dependencies in edge order |
| Drawing.DrawnRenames | internal/graph/extract.go:272-305 | the graph drawn for a pipeline with distinct names and known dependencies is its dependency graph with every name prefixed |
| Drawing.DrawnAcyclic | internal/graph/dot.go:179-221 | if the pipeline has a layering, the graph drawn has no cycle, so the level recursion returns |
| Drawing.DrawLevels | internal/graph/dot.go:105-145 | for every pipeline that BuildDAG accepts, the levels drawn are level by level the layers executed; without steps there are neither |
| Pipeline.EveryRun | internal/pipeline/executor.go:51-128 | every state of every interleaving, whatever the invoker replies, with failures and cancellation, keeps the recorded steps, fail-fast, token and failure invariants |
| Pipeline.RunOutcome | internal/pipeline/executor.go:51-128 | whatever the invoker replies, total tokens are the sum over recorded steps; a completed run recorded every step and no failure; a failed one recorded the whole failing layer, all failures lie in it, and nothing later ran; a cancelled one recorded whole layers and no failure |
| Pipeline.Progress | internal/pipeline/executor.go:51-128 | no interleaving gets stuck while the pipeline is running |
| Pipeline.FireLowers | internal/pipeline/executor.go:51-128 | every event but outside cancellation lowers a count of what is left to do |
| Pipeline.RunsEnd | internal/pipeline/executor.go:51-128 | hence every run ends: besides cancellations it has at most a fixed number of events |
| PipelineDeterminism.Confluence | internal/pipeline/executor.go:51-162 | with a deterministic invoker that does not fail, every interleaving ends completed with the same results, outputs and tokens |
| PipelineDeterminism.FailingConfluence | internal/pipeline/executor.go:51-162 | with a deterministic invoker that may fail and no outside cancellation, every finished interleaving completes iff no step fails on the reference inputs; otherwise it fails in the first layer with such a step, has recorded that layer completely and has the reference results in all earlier layers |
| PipelineDeterminism.SameEnd | internal/pipeline/executor.go:51-162 | hence any two finished interleavings have the same status, recorded steps and stopping layer, and equal results in the layers before it |
| PipelineDeterminism.ExecutePipeline | internal/runtime/server.go:762-824 | the sequential loop stops at the first failure and leaves the status, outputs and step records of the sequential reference |
| PipelineDeterminism.RecordsTell | internal/runtime/server.go:762-824 | with distinct names a completed reference run has a record for every step, with the output it stored; a failed one has records for the steps up to one failing step, which alone is recorded as failed |
| PipelineDeterminism.ConcurrentEqualsSequential | internal/runtime/server.go:762-824 | if no step with empty input follows a step named trigger in a later layer, the outputs of every finished concurrent run equal those of the sequential run on any declaration order listing dependencies first |
| PipelineDeterminism.AgreeExactly | internal/runtime/server.go:762-824 | over all triggers, invokers that do not fail and finished runs the two executors agree iff that condition holds |
| PipelineDeterminism.TriggerNameBreaks | internal/pipeline/executor.go:134-141 | for every pipeline without it there are a trigger, an invoker and a completed concurrent run with other outputs than the sequential one |
| PipelineDeterminism.LayeredFixpoint | internal/pipeline/executor.go:130-162 | each step's layered result is what its agent answers to the input resolved from the final outputs |
| PipelineDeterminism.DagWellOrdered | internal/pipeline/dag.go:26-65 | what BuildDAG accepts meets the assumptions of the two theorems above |
| StepChaining.InvokedWith | internal/pipeline/executor.go:130-162 | in every run, failed and cancelled ones included, a step's agent is given the step's own input; without one, the output of its first dependency, which has succeeded by then; and if there is none or it is empty, the trigger text, or the output of a step named trigger in an earlier layer |
| StepChaining.InputsChain | internal/pipeline/executor.go:130-162 | hence in every finished run with a dependable invoker, where no step can see an overwritten trigger, each output answers the text found so among the final outputs |
| StepChaining.ResultsCarryReplies | internal/pipeline/executor.go:130-162 | in every run, whatever the replies, each recorded result carries name, agent, output or error and tokens of the reply to the only invocation of its step |
| StepChaining.TotalsByField | internal/pipeline/executor.go:164-171 | each of the four token totals is the sum of that number over the recorded steps |
| StepChaining.CancelledExactly | internal/pipeline/executor.go:51-128 | the context is cancelled iff it was asked for or a step failed, and a run ends as cancelled only if it was asked for |
| StepChaining.CancelStops | internal/pipeline/executor.go:66-72 | after a cancellation only the layer in progress is finished: nothing of a later layer is ever recorded |
| StepChaining.SequentialStep | internal/runtime/server.go:762-824 | the sequential executor invokes the next step with the text found by the same rule in what the steps before it left, and stores the reply or stops with its error |
| StepChaining.SequentialChains | internal/runtime/server.go:762-824 | hence each output of a completed sequential run answers the text found so among the final outputs |
| OnInputMeaning.LoweringPreserves | internal/ir/lower.go:730-783 | for all oracles, executing the lowered block makes the same calls in the same order with the same actions, output, error and context as interpreting the structurally valid syntax tree |
| OnInputMeaning.ValidatedRun | internal/validate/semantic.go:189-218 | a block both validators accept never hits a missing-field or unknown-statement error and calls only declared skills and agents |
| ValidationLaws.ReportsEmptyFields | internal/validate/structural.go:238-292 | one error for every empty name and expression at any depth, so exactly the blocks without any are accepted |
| ValidationLaws.ReportsUnknownNames | internal/validate/semantic.go:189-218 | one error for every use of an undeclared skill and every delegation to an undeclared agent, at any depth |
| OnInputMeaning.LoopVariablesRemoved | internal/controlflow/executor.go:247-294 | on normal and error exit the variables are what they were when no loop reuses a bound name |
| OnInputMeaning.LoopVariableKept | internal/controlflow/executor.go:247-294 | inside a loop its variable keeps its value through nested blocks that do not reuse the name |
| OnInputMeaning.ShadowingRemoves | internal/controlflow/executor.go:247-325 | after one loop its name is bound iff it was and the collection cannot be iterated; if nested loops reuse no other bound name, the variables are unchanged iff the name was not bound or the collection cannot be iterated |
| ControlFlowExecutor.ExecuteBlock | internal/controlflow/executor.go:45-111 | the loop leaves the context, actions, output and error of the executor function the theorems are about |
| ControlFlowExecutor.ExecuteStmt | internal/controlflow/executor.go:49-108 | the dispatch of one statement does the same for that statement |
| ControlFlowExecutor.ExecuteUseSkill | internal/controlflow/executor.go:114-146 | calls the skill with the current input and parameters and records its output, or reports the missing name or failed call |
| ControlFlowExecutor.ExecuteDelegate | internal/controlflow/executor.go:148-170 | the same for an agent |
| ControlFlowExecutor.ExecuteRespond | internal/controlflow/executor.go:172-195 | the output becomes the value of the expression |
| ControlFlowExecutor.ExecuteIf | internal/controlflow/executor.go:197-245 | runs the first branch whose condition holds |
| ControlFlowExecutor.ExecuteForEach | internal/controlflow/executor.go:247-294 | binds the variable to each item in turn and deletes it on every exit |
| ControlFlowLaws.EnvIs | internal/controlflow/context.go:79-94 | expressions see input, session, steps, config and output under these names and every variable under its own, which hides the others |
| ControlFlowLaws.NoStatements | internal/controlflow/executor.go:45-48 | no statements: no actions, no output, the same context |
| ControlFlowLaws.Then | internal/controlflow/executor.go:45-111 | a statement runs in the context the ones before it left, and only if none failed; actions append and the output is replaced, except by an empty one of an if or a loop; a failing statement leaves both as they were |
| ControlFlowLaws.Unknown | internal/controlflow/executor.go:49-108 | what is no statement is passed over, and an unknown kind is an error that keeps what happened before |
| ControlFlowLaws.MissingFields | internal/controlflow/executor.go:49-279 | a statement with a needed field absent, empty or not a string fails naming the first such field, before anything is called or evaluated |
| ControlFlowLaws.UseLaw | internal/controlflow/executor.go:114-146 | an answered use makes exactly that call with the current input and records the reply as step, output and action; an unanswered one has made the call and nothing else |
| ControlFlowLaws.DelegateLaw | internal/controlflow/executor.go:148-170 | the same for an agent, whose reply is no recorded step |
| ControlFlowLaws.RespondLaw | internal/controlflow/executor.go:172-195 | the output becomes the shown value of the expression in the environment, or the expression itself when it has none |
| ControlFlowLaws.IfTrue | internal/controlflow/executor.go:197-245 | when the condition holds, the if does what its body does |
| ControlFlowLaws.IfElseIf | internal/controlflow/executor.go:197-245 | otherwise what the first else-if does whose condition holds |
| ControlFlowLaws.IfElse | internal/controlflow/executor.go:197-245 | when none holds, what the else body does, and without one nothing |
| ControlFlowLaws.IfBad | internal/controlflow/executor.go:197-245 | a condition that is reached and is neither true nor false is an error, and nothing runs |
| ControlFlowLaws.LoopLaw | internal/controlflow/executor.go:247-325 | a loop runs its body once per item, in order, with the variable bound, until a round fails; actions are those of the rounds that did not, output is their last non-empty one, and the variable is gone afterwards |
| Lexer.Scanner.ScanLiteral | internal/parser/lexer.go:132-174 | the scanning loop returns the literal and position of the recursive definition, or fails on a literal or escape cut short |
| Lexer.LexWord | internal/parser/lexer.go:48-130 | lexing a text that ends with its last token, before a delimiter, gives its tokens followed by those of the rest |
| LexerLaws.BlankIgnored | internal/parser/lexer.go:192-215 | blanks, tabs and carriage returns before a token mean nothing |
| LexerLaws.CommentIgnored | internal/parser/lexer.go:192-215 | a comment from # or // to the end of its line means nothing |
| LexerLaws.EscapesRead | internal/parser/lexer.go:132-174 | the escapes of newline, tab, backslash and quote are decoded, any other backslash stays |
| LexerLaws.WordRead | internal/parser/lexer.go:183-190 | a word is one token up to the first character that cannot be in it |
| OnInputParser.Parser.ParseOnInputBlock | internal/parser/parser.go:1745-1763 | moving the position and appending errors leaves exactly the value, rest and errors of the parsing function |
| OnInputParser.Parser.ParseStatements | internal/parser/parser.go:1766-1795 | the same for the statement loop, with its error recovery |
| OnInputParser.Parser.ParseParams | internal/parser/parser.go:1808-1834 | the same for the parameter loop |
| OnInputParser.Parser.ParseUseSkill | internal/parser/parser.go:1798-1836 | the same for a use statement |
| OnInputParser.Parser.ParseDelegateTo | internal/parser/parser.go:1839-1850 | the same for a delegate statement |
| OnInputParser.Parser.ParseRespond | internal/parser/parser.go:1853-1865 | the same for a respond statement |
| OnInputParser.Parser.ParseIf | internal/parser/parser.go:1868-1911 | the same for an if block |
| OnInputParser.Parser.ParseElses | internal/parser/parser.go:1882-1907 | the same for the loop over else clauses and its break |
| OnInputParser.Parser.ParseForEach | internal/parser/parser.go:1914-1939 | the same for a for-each block |
| OnInputParser.Parser.CollectExpressionUntil | internal/parser/parser.go:1944-1971 | stops at the first stop token and joins the parts collected before it |
| OnInputParser.Parser.ExpectToken | internal/parser/parser.go:911-918 | passes newlines, then consumes the token or reports it and stays |
| Recognition.ErrorsExactly | internal/parser/parser.go:1745-1971 | for all tokens, parsing a block reports no error iff the tokens start with a block of the grammar |
| Recognition.BlockRead | internal/parser/parser.go:1745-1971 | every block of the grammar, with words left out, separators chosen and newlines put in any way it allows, parses to what it means and nothing after it is consumed |
| Recognition.BlockSplit | internal/parser/parser.go:1745-1971 | whatever parses without error is such a block followed by the tokens left over, and the result is what it means |
| Recognition.OneReading | internal/parser/parser.go:1745-1971 | the grammar is not ambiguous: tokens determine the statements and where the block ends |
| Recognition.NameKinds | internal/parser/parser.go:931-944 | names are exactly strings, identifiers, keywords, the colon and the comparison operators |
| CollectedText.CollectNext | internal/parser/parser.go:1944-1971 | in the text of an expression newlines are dropped, a dot sticks to both sides, strings keep their quotes, and everything else is set off by one blank |
| UnprintedForms.RespondReads | internal/parser/parser.go:1853-1865 | respond with an expression that does not start with a string gives exactly that expression |
| UnprintedForms.RespondLiteral | internal/parser/parser.go:1853-1865 | respond with a string gives its text, whatever follows |
| UnprintedForms.UseWithoutSkill | internal/parser/parser.go:1798-1836 | leaving out the word skill changes nothing |
| UnprintedForms.DelegateWithoutTo | internal/parser/parser.go:1839-1850 | leaving out the word to changes nothing |
| UnprintedForms.ForWithoutEach | internal/parser/parser.go:1914-1939 | leaving out the word each changes nothing |
| UnprintedForms.ParamsRead | internal/parser/parser.go:1808-1834 | parameters separated by commas, newlines or both are all read, later ones replacing earlier ones of the same name |
| UnprintedForms.JunkSkipped | internal/parser/parser.go:1766-1795 | a token that starts no statement adds one error and is passed over; the rest is read as without it |
| UnprintedForms.MissingIn | internal/parser/parser.go:1914-1939 | a loop without the word in is read as with it, with one error more |
| Formatter.FormatOnInputBlock | internal/formatter/formatter.go:674-680 | appends to the builder exactly the block's text |
| Formatter.FormatOnInputStmt | internal/formatter/formatter.go:682-711 | appends exactly the statement's text |
| Formatter.FormatIfBlock | internal/formatter/formatter.go:713-734 | appends exactly the text of an if block with all its clauses |
| Formatter.FormatForEachBlock | internal/formatter/formatter.go:736-742 | appends exactly the text of a for-each block |
| Formatter.FormatOnInputParams | internal/formatter/formatter.go:686-701 | appends the parameters in key order whatever the map order |
| Layout.BlockLaidOut | internal/formatter/formatter.go:674-742 | a formatted block is its lines, each indented by two blanks per level of nesting under the margin |
| Quoting.QuoteIsLossless | internal/formatter/formatter.go:682-711 | the quoted form of any text, whatever is printable, is decoded to that text by the escapes of Go string literals |
| PrintedTokens.ReadBackExactly | internal/parser/lexer.go:132-174 | text quoted by %q is read back unchanged iff it uses only printable characters, newlines and tabs |
| PrintedTokens.BlockTokens | internal/parser/lexer.go:48-130 | the lexer turns a formatted block of any depth into exactly its tokens |
| RoundTrip.PrintThenParse | internal/formatter/formatter.go:674-742 | parsing the printed form of any nested block, with one-token names, expressions in collected form and responses using only the lexer's escapes, reports no error and gives the block back; it is the same block iff no else in it is empty |
| RoundTrip.ParsesStmts | internal/parser/parser.go:1766-1795 | the tokens of a statement list are parsed back to it, to any depth |
| RoundTrip.ParsesElses | internal/parser/parser.go:1868-1911 | else-if and else clauses are parsed back in order |
| CollectedText.CollectedSurvives | internal/parser/parser.go:1944-1971 | whatever tokens an expression was collected from, as long as its strings need no escapes, its text lexes again without meeting a stop token and is collected to itself |
| CollectedText.LexMakes | internal/parser/lexer.go:48-130 | every token the lexer returns is a string or is spelled as its kind requires |
| Reformat.FormattingIsStable | internal/formatter/formatter.go:674-742 | whatever text a block was parsed from, errors included, parsing its formatted form reports no error and gives the same block, if strings inside expressions need no escapes, names are single unquoted tokens and responses use only the lexer's escapes |
| Suggest.Levenshtein | internal/validate/semantic.go:300-327 | the two swapped rows compute the distance recurrence |
| Suggest.LeastEdits | internal/validate/semantic.go:300-327 | the distance is the least number of single-byte insertions, deletions and substitutions turning a into b |
| Suggest.DistSymmetric | internal/validate/semantic.go:300-327 | the distance is symmetric |
| Suggest.DistZero | internal/validate/semantic.go:300-327 | it is zero iff the strings are equal |
| Suggest.DistTriangle | internal/validate/semantic.go:300-327 | it satisfies the triangle inequality |
| Suggest.SuggestName | internal/validate/semantic.go:274-297 | a name is suggested iff a non-empty one is within half the length; it is the nearest, among equals the least; otherwise all names are listed in order |
| StateFile.CrashSafety | internal/state/local.go:228-295 | a crash after any system call of Save, or any failing call, leaves exactly the old or exactly the new entries to load, iff the main file is not unreadable beside a readable backup |
| StateFile.TraceSafe | internal/state/local.go:228-295 | the same for one trace from such a disk, which also never makes a loadable state unloadable |
| StateFile.Committed | internal/state/local.go:264-295 | a save without error leaves the new main file and the old one as backup; one with an error leaves what loads unchanged unless the main file was the unreadable one beside a readable backup |
| StateFile.FailedSaveLeaves | internal/state/local.go:242-295 | what each failing call of a save leaves of the three files |
| StateFile.LoadKeeps | internal/state/local.go:138-222 | loading, even with the restoring write cut short, does not change what the next load returns |
| StateFile.ReadFrom | internal/state/local.go:138-222 | what loads is a readable main file, else a readable backup; two missing files are no error; it is an error iff a file is unreadable and none is readable |
| StateFile.LoadRestores | internal/state/local.go:138-222 | a load that completes its restoring write makes the main file a copy of the backup if it used it, and changes nothing otherwise |
| StateFile.RoundSafety | internal/state/local.go:138-295 | a process that loads any number of times, with restoring writes failing or cut short, and then saves leaves the old or the new entries after any crash or fault, iff its last load did not leave an unreadable main file beside a readable backup |
| StateFile.FailedRestoreLosesState | internal/state/local.go:195-221 | for all entries, a failed or partial restoring write followed by a crash in the save leaves nothing to load, from a missing and from an unreadable main file |
| StateFile.RoundsSafe | internal/state/local.go:138-295 | over any number of processes that load, save and crash anywhere, each meeting that condition, what loads is the first state or one that was being saved |
| StateFile.FullRestoresGuard | internal/state/local.go:182-221 | rounds whose last load restored completely, or had nothing to restore, meet the condition |
| StateFile.SavedIsKept | internal/state/local.go:228-295 | once a save returned without error, and later rounds meet the condition, only its entries or those of a later save can be loaded |
| StateFile.FileSystem.Load | internal/state/local.go:138-222 | returns what the disk holds and leaves the restored disk |
| StateFile.FileSystem.Save | internal/state/local.go:228-295 | leaves the caller's slice a permutation with no FQN after a greater one, and goes through exactly the disks of the trace |
| StateCache.EveryHitIsOnDisk | internal/state/local.go:138-175 | in every run from a cold cache where every write gets a fresh time, with saves failing at any call and writes between a stat and its read, a cache hit is what is on disk |
| StateCache.RunCoherent | internal/state/local.go:138-295 | every operation, failed saves included, keeps: equal times imply equal entries, for the main file and the backup, and the index is that of the cached entries |
| StateCache.LoadReturnsDisk | internal/state/local.go:138-175 | a hit returns the file as of the stat, a miss the file as of the read |
| StateCache.LoadMatches | internal/state/local.go:138-222 | a load the cache does not answer returns what the crash-safety model reads from the files and leaves what a load leaves there |
| StateCache.SaveMatches | internal/state/local.go:228-295 | complete and failed saves leave the files that the traces of the crash-safety model end with |
| StateCache.RacedLoadIsRepeated | internal/state/local.go:138-175 | a load remembers the time it saw before reading, so if another write came in between the next load reads again |
| StateCache.GetIsSearch | internal/state/local.go:298-315 | with distinct FQNs and a readable main file Get finds what a search of the loaded entries finds |
| StateCache.IndexAgrees | internal/state/local.go:501-507 | with distinct FQNs index lookup and first-match search agree |
| StateCache.ReusedTimeIsStale | internal/state/local.go:151-155 | after an outside write a hit is stale iff the write has the cached time and other content |
| StateCache.LocalBackend.Load | internal/state/local.go:138-222 | updates cache, index and file as the step function of the runs |
| StateCache.LocalBackend.Save | internal/state/local.go:228-295 | a completed save drops the cache and a failed one leaves it, with the files as the save or failure step of the runs |
| StateCache.LocalBackend.Get | internal/state/local.go:298-315 | returns the entry the index has after loading or nothing, and counts one hit or one miss accordingly and none on an error |
| StateCache.LocalBackend.BuildIndex | internal/state/local.go:501-507 | maps every FQN to its last entry |
| PlanApply.ComputePlan | internal/plan/plan.go:20-92 | no action follows one with a greater FQN; an action creates iff there is no entry, leaves alone iff the last entry has the same hash and did not fail, updates iff there is an entry that is otherwise, deletes iff nothing desires the entry; every resource and every undesired entry has one; changes are reported iff some action is not a noop |
| PlanApply.PlanMeans | internal/plan/plan.go:20-92 | the same for every order of the plan |
| PlanApply.PlanIsOutstanding | internal/plan/plan.go:20-92 | a plan changes exactly the resources that state and specification disagree on, or that failed, or that nothing asks for |
| PlanApply.ApplyThenPlan | internal/apply/apply.go:53-133 | with distinct FQNs and one result per action in order, the next plan changes exactly what failed, in whatever order the plan ran and the state was saved |
| PlanApply.ApplyAfterFailedLoad | internal/apply/apply.go:74-123 | if that load failed, the next plan changes exactly what failed and what was up to date, so it is right iff nothing was |
| PlanApply.RoundsShrink | internal/apply/apply.go:53-133 | over any number of rounds on fixed resources what is outstanding only shrinks |
| PlanApply.SettledStaysSettled | internal/apply/apply.go:53-67 | when nothing is outstanding nothing is applied |
| PlanApply.Apply | internal/apply/apply.go:53-133 | skips noops, takes a failed load for an empty state, saves nothing when there is nothing to do or the adapter fails, and otherwise saves exactly the recorded results and counts them |
| PlanApply.ProcessResults | internal/apply/apply.go:82-123 | the result loop records applied, removed and failed resources and counts each |
| PlanApply.CountsAll | internal/apply/apply.go:82-123 | every result is counted once, and none as failed iff none failed |
| PlanApply.CountsByKind | internal/apply/apply.go:82-123 | each of the four counts is the number of results of its kind |
| PlanApply.RecordedAs | internal/apply/apply.go:82-123 | afterwards what was applied is on record with its hash, what failed with the adapter's error and no hash, what was deleted not at all, and everything without a result as before |
| Memory.RunsFromEmpty | internal/memory/sliding.go:65-126 | in every interleaving of Save, Clear and the two phases of Load on non-empty identifiers, at most maxSessions sessions are stored, each holding all of what was saved since its last clear or eviction or exactly the last maxMessages of it |
| Memory.HoldsTheEnd | internal/memory/sliding.go:65-126 | for any identifier, what is held is an end of what its saves since the last clear appended, and all of it or exactly maxMessages if it was not evicted |
| Memory.EveryRun | internal/memory/sliding.go:65-126 | the same from any state of the invariant, with the tracker ordered by last use |
| Memory.VictimsAreOldest | internal/memory/sliding.go:100-107 | what a save evicts was used before everything that stays and is never the session saved |
| Memory.BoundedExactly | internal/memory/sliding.go:100-107 | for every set of identifiers and every limit, all runs over the set keep the session bound iff the empty identifier is not in it or it has no more members than the limit |
| Memory.LeakExceeds | internal/memory/sliding.go:100-107 | otherwise there is a run that stores one session more than the limit |
| Memory.LRU.Promote | internal/memory/lru.go:22-30 | moves the identifier to the front and keeps the order of the others |
| Memory.LRU.Evict | internal/memory/lru.go:33-42 | removes and returns the last identifier |
| Memory.LRU.Remove | internal/memory/lru.go:45-50 | removes the identifier and keeps the order of the others |
| Memory.SlidingWindow.constructor | internal/memory/sliding.go:39-54 | starts empty, with the default limits for non-positive ones |
| Memory.SlidingWindow.SaveMessages | internal/memory/sliding.go:83-117 | one save step of the runs |
| Memory.SlidingWindow.EvictOldest | internal/memory/sliding.go:100-107 | the eviction loop of that step, which stops at an empty identifier |
| Memory.SlidingWindow.ClearSession | internal/memory/sliding.go:120-126 | one clear step of the runs |
| Memory.SlidingWindow.PromotePhase | internal/memory/sliding.go:73-76 | the second phase of Load |
| Memory.SlidingWindow.ReadPhase | internal/memory/sliding.go:66-70 | returns the last maxMessages of whatever full history the store stands for |
| TokenBucket.WindowBound | internal/auth/ratelimit.go:133-149 | requests to one bucket within a window of length T are allowed at most burst + rate·T times |
| TokenBucket.AllowedExactly | internal/auth/ratelimit.go:133-149 | a request is refused iff allowing it would take some window that ends with it over burst + rate·T |
| TokenBucket.SweepingUnobservable | internal/auth/ratelimit.go:303-318 | sweeping out unused buckets cannot be noticed iff TTL·rate is at least the burst |
| TokenBucket.ShortTimeExceedsBound | internal/auth/ratelimit.go:303-318 | with a shorter TTL the window bound fails for every configuration |
| TokenBucket.OverlapUnseen | internal/auth/ratelimit.go:103-150 | if TTL·rate is at least the burst, in every schedule of overlapping requests and sweeps the takes on the bucket in the map are answered as by one bucket that is never evicted |
| TokenBucket.OverlapBound | internal/auth/ratelimit.go:103-150 | in every such schedule a window of length T allows at most burst + rate·T, plus the takes in it on buckets already evicted |
| TokenBucket.RunWindowBound | internal/auth/ratelimit.go:103-150 | hence the plain bound in every window without such takes |
| TokenBucket.EvictionRaceExceedsBurst | internal/auth/ratelimit.go:103-150 | for every burst of at least one, every TTL and every n there is a schedule with n such takes in which burst + n requests pass at one instant |
| RateLimiter.RateLimiter.FindBucket | internal/auth/ratelimit.go:105-131 | returns the key's bucket or a new full one; over the limit exactly as many as are too many go, each unused for at least as long as every one kept, and the new one stays if all others are older; the last refill and access of every bucket stay one time |
| RateLimiter.RateLimiter.TakeToken | internal/auth/ratelimit.go:133-149 | refills up to the burst and takes a token iff there is one, and sets the last refill and access to one time |
| RateLimiter.RateLimiter.EvictOldest | internal/auth/ratelimit.go:248-273 | removes n distinct keys, or all, each unused for at least as long as every key kept |
| RateLimiter.RateLimiter.EvictStale | internal/auth/ratelimit.go:303-318 | removes exactly the buckets not used within the TTL, which are those the machine of the runs calls expired, and returns how many |
| RateLimiter.RateLimiter.AuthFailure | internal/auth/ratelimit.go:194-227 | one failure step of the runs and whether it blocks; entries of other addresses go only if it does not, there are more than 1000, and their block is over or their window began more than ten minutes ago |
| RateLimiter.RateLimiter.EvictStaleAuth | internal/auth/ratelimit.go:236-244 | removes exactly the entries whose block is over or whose window began more than ten minutes ago |
| RateLimiter.RateLimiter.IsAuthBlocked | internal/auth/ratelimit.go:153-174 | whether a block is live, removing one that has expired |
| RateLimiter.RateLimiter.AuthSuccess | internal/auth/ratelimit.go:230-234 | one success step of the runs: the address is not blocked at any time after and nothing changes for the others |
| AuthBlocks.BlockLasts | internal/auth/ratelimit.go:153-244 | in every run, once a failure at t blocks an address every check before t + 5 min finds it blocked unless that address succeeds |
| AuthBlocks.StepHolds | internal/auth/ratelimit.go:236-244 | no single event, stale eviction included, ends a live block early |
| AuthBlocks.RunShort | internal/auth/ratelimit.go:194-227 | in every run a block ends at most six minutes after its window started |
| AuthBlocks.BlockIsEarned | internal/auth/ratelimit.go:194-227 | every block follows at least ten failures of that address within one minute |
| AuthBlocks.TenthFailureBlocks | internal/auth/ratelimit.go:194-227 | from the first failure of an address without entry, a failure within one minute blocks iff it is at least the tenth, whatever other addresses, checks and evictions do, unless the address succeeds |
| AuthBlocks.BlocksExactly | internal/auth/ratelimit.go:153-244 | in every run that checks an address before each failure, a failure blocks iff it is at least the tenth since the one that opened the address's window |
| AuthBlocks.BlockedOnlyThen | internal/auth/ratelimit.go:153-174 | an address is found blocked only within five minutes of a failure that blocked it and with no success since |
| AuthBlocks.UncheckedFailureIsForgotten | internal/auth/ratelimit.go:153-227 | without the check, a failure after a block has run out does not count: the next check drops it |
| SafeZones.ParseSafeZones | internal/compiler/safezone.go:24-88 | the loop computes the zones the lemmas are about |
| SafeZones.ZonesHoldFile | internal/compiler/safezone.go:24-88 | for every file every line is in exactly one zone, in order, and no zone is empty |
| SafeZones.UserZonesAreSections | internal/compiler/safezone.go:24-88 | in a well-bracketed file the user zones are the stretches from each user start marker to the next user end marker |
| SafeZones.ExtractUserCode | internal/compiler/safezone.go:92-103 | maps i to the text of the i-th user zone |
| SafeZones.MergeWithUserCode | internal/compiler/safezone.go:108-131 | the loop computes the merge the lemmas are about |
| SafeZones.MergePreserves | internal/compiler/safezone.go:108-131 | merging keeps a file well bracketed and every line outside user sections, and its i-th user section is the old one whenever there was one |
| SafeZones.RecompilePreserves | internal/compiler/safezone.go:92-131 | over any number of recompilations a user section that every new file has a place for is unchanged |
| SafeZones.DroppedSectionIsLost | internal/compiler/safezone.go:92-131 | once a new file has no place for a section, its earlier content has no influence on any later file |
| WrappedCode.MarkExactly | internal/compiler/safezone.go:24-88 | a line is one of the four markers iff it is the comment prefix and the marker's words between dashes, blanks around it aside |
| WrappedCode.ExtractsWrapped | internal/compiler/safezone.go:92-155 | a file made of wrapped generated and user parts is well bracketed, and extracting gives exactly the wrapped user parts |
| WrappedCode.RecompiledText | internal/compiler/safezone.go:92-155 | recompiling replaces each user part by the old one in the same place, if there is one, and leaves the rest of the text but for one newline at the end |

## Left out

- RoundTrip.PrintThenParse: quoted names of several tokens and expressions not in collected form are outside, because the formatter writes names unquoted and expressions as they are.
- Reformat.FormattingIsStable: needs plain string literals inside expressions, because the parser quotes them again without escaping.
- Levels.GroupByDepLevel: cyclic pipelines are excluded, because there the recursion of the source does not return; `Drawing.DrawLevels` meets the condition for every accepted pipeline. For no steps it gives one empty level, but the renderer never asks.
- Drawing.DrawLevels: one pipeline is drawn, so identifiers of different pipelines cannot clash.
- OnInputMeaning.LoopVariablesRemoved: assumes that no loop variable is already bound; what happens otherwise is `ShadowingRemoves`.
- AuthBlocks.BlocksExactly: requests of one address follow one another; for overlapping ones `TenthFailureBlocks`, `BlockIsEarned` and `BlockLasts` hold.
- Recognition.ErrorsExactly: which errors are reported, and how many, is stated only for a stray token and a missing `in`.
- Removal of buckets by the entry limit is outside the window and sweeping theorems, which follow one key.
- The rest of the grammar, the formatter and the lowering: flat cases that would add size only.
- Reporting: error positions, hints, reasons, logging, events and durations; two errors are told apart only where control depends on it.
- A stat that fails for a reason other than a missing file, and the order of entries with equal FQNs after sorting.
- The state lock, `SaveBudgets` (its writer's comment says atomic, the code writes the file in place), `SaveVersion`, `List`, and `Get` right after recovery from a backup.
- Import file resolution, content hashes, and how the graph is filled from resolved imports.
- `AuthBlockRetryAfter`, the HTTP middleware beyond the order of check and failure, and reading of limits from the environment.
- The choice of the comment prefix by language: a table.
- `Summary` memory, versions, policies, costs, metrics, templates and environment overlays: one-branch facts.
- LLM clients, MCP, plugins, sandboxes, HTTP handlers, the CLI, remote state backends, adapters and editors: I/O.
