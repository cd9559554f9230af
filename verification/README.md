# Falco userspace in Dafny

This project models the parts of Falco's userspace in which several pieces of state have to stay in step, and proves what
they promise. Three groups of code are covered.

**The rule pipeline.** The collector turns a stream of define, append and replace operations into vectors with an index and
a visibility clock (`CollectorSpec`, `Collector`, `IndexedVectors`). The compiler builds exceptions into condition texts
(`ConditionLexer`, `ConditionText`, `Exceptions`, `ExceptionText`, `ExceptionFailures`), expands lists by rewriting the text (`ListText`, `ListResolver`) and macros
by rewriting syntax trees in place (`FilterAst`, `MacroResolver`, `MacroCompiler`, `Pipeline`). What comes out means what the
definitions mean, up to the events a loaded rule matches; where the code falls short of that, the exact condition is proved.

**The event-type index and the engine.** `RulesetSpec` says what a history of enabling and disabling comes to, without any
index; `Ruleset` is the index and agrees with it. `Wildcard` is the pattern matcher used to select rules. `Loading`, `Engine`
and `Stats` load compiled rules into the sources, run events and count matches. `Duration` reads Prometheus time durations.

**Concurrent protocols.** `LiveSources` (starting and stopping event sources), `SignalHandler`, `OutputsQueue`, `Watchdog` and
`GrpcContexts` are state machines in which every atomic load, store, exchange, lock and queue access is a step of its own;
results hold for every interleaving of any number of threads and every reachable state. `RestartWatcher` is the debounce loop
over what it observes, and the shared flag it observes; `Stats` also has its counters as shared memory.

Code that updates fields or loops over containers is modelled by classes and methods, each proved against a function of its
inputs; the properties are proved of these functions. A `requires` is what callers of the source have to provide, what
another module is proved to deliver, or (rule names are not empty) what the YAML reader ensures. `dafny verify dfyconfig.toml` checks the whole project.

Where code and documentation differ, the model follows the code. The comment on `atomic_signal_handler::handle` speaks of
"an exception"; the code catches standard exceptions only, and the statements about actions count the others separately. The
duration reader passes base 0 to the number conversion, so a leading zero means octal. `resolve_list` skips a list name that
stands right behind a substitution at the beginning of the text. Exception values are put into the condition text with quotes
or parentheses but without escaping, so some values break the condition or change it.

Conditions are read by the filter library, whose parser is not part of this repository. `ConditionLexer` and `ConditionText`
state how a text is read: blanks separate, parentheses group, `or` binds weaker than `and` and `and` weaker than `not`; a
comparison is a field, an operator and a value, or a list of values in parentheses; a value is a run of characters other than
blanks, parentheses, commas, quotation marks and `=`, or a text in quotation marks that ends at the next such mark without a
backslash before it. The operators are parameters.

## Model

| member | source | states |
|---|---|---|
| MacroResolver.Resolver.Run | userspace/engine/filter_macro_resolver.cpp:23-37 | One run replaces the filter by its full resolution; it returns true iff the filter mentions a defined macro, the unknown list is exactly the identifiers left in the result, and there is a loop error iff a macro on a reference cycle can be reached from the filter. |
| MacroResolver.Resolver.Visit | userspace/engine/filter_macro_resolver.cpp:87-161 | The visitor with its path stack and node substitute leaves, for any node, the resolution of that node and appends exactly its unknown, resolved and looping references; the path is restored. |
| MacroResolver.Resolver.VisitChildren | userspace/engine/filter_macro_resolver.cpp:61-85 | The in-place loop over children leaves every child resolved, in order. |
| MacroResolver.Resolver.SetMacro | userspace/engine/filter_macro_resolver.cpp:39-44 | Adds or replaces one macro and nothing else. |
| MacroResolver.LeftoverIsUnknown | userspace/engine/filter_macro_resolver.cpp:127-161 | For every filter, path and macro table, the identifiers left in the result, in reading order, are exactly those reported unknown. |
| MacroResolver.ErrorsAreDefinedLeftovers | userspace/engine/filter_macro_resolver.cpp:132-141 | The loop errors are exactly the left-over identifiers that are defined; without loop errors only undefined names are left. |
| MacroResolver.LoopErrorIff | userspace/engine/filter_macro_resolver.cpp:127-155 | A loop error is reported iff some walk along references from the filter meets a macro twice. |
| MacroResolver.MeaningPreserved | userspace/engine/filter_macro_resolver.cpp:61-161 | Under every reading of the names that agrees with the macro definitions, the resolved filter has the truth value of the original on every event. |
| MacroResolver.SecondRunChangesNothing | userspace/engine/filter_macro_resolver.cpp:23-37 | After a run without loop errors a second run returns the same tree and resolves nothing. |
| MacroResolver.ResolvesIffMentions | userspace/engine/filter_macro_resolver.cpp:36 | A run resolves something iff the filter mentions a defined macro. |
| MacroResolver.MentionedIsResolved | userspace/engine/filter_macro_resolver.cpp:153 | When nothing is left unknown, every name the filter mentions is recorded as resolved. |
| MacroResolver.ResolvedIsMentioned | userspace/engine/filter_macro_resolver.cpp:153 | Every name recorded as resolved is defined and mentioned by the filter or by some macro. |
| MacroCompiler.CompileMacros | userspace/engine/rule_loader_compiler.cpp:379-401 | Compilation succeeds iff there is no reference cycle and every macro sees what it has to look up; then every output is the full unfolding of the raw definition, and a macro is marked used iff some macro refers to it. |
| MacroCompiler.CompileOne | userspace/engine/rule_loader_compiler.cpp:396-400 | Resolving one macro in place, among partly resolved ones, is one step of that compilation. |
| MacroCompiler.ResolveMacros | userspace/engine/rule_loader_compiler.cpp:253-292 | Resolves against the macros visible at a clock value, and marks macros used only when the run is free of errors and unknown names. |
| MacroCompiler.MarkUsed | userspace/engine/rule_loader_compiler.cpp:288-291 | Exactly the macros named in the resolved list gain the used flag. |
| MacroCompiler.CompileCorrect | userspace/engine/rule_loader_compiler.cpp:379-401 | For every collected sequence: success iff acyclic and visible, and each output equals the order-independent unfolding of the raw definitions, which is macro-free. |
| MacroCompiler.DirectReferencesVisible | userspace/engine/rule_loader_compiler.cpp:263-270 | If compilation succeeds, every direct reference was visible to its referrer. |
| MacroCompiler.CompiledMeansRaw | userspace/engine/rule_loader_compiler.cpp:379-401 | Each compiled macro has, on every event, the truth value of its raw definition under every reading that agrees with the raw definitions. |
| MacroCompiler.CompiledIsAReading | userspace/engine/rule_loader_compiler.cpp:379-401 | Such a reading always exists: the compiled macros themselves provide one. |
| MacroCompiler.UnfoldsToUnique | userspace/engine/rule_loader_compiler.cpp:379-401 | A filter has at most one full unfolding. |
| MacroCompiler.RuleConditionUnfolds | userspace/engine/rule_loader_compiler.cpp:426-427 | A rule condition resolved against the compiled macros meets no loop, leaves nothing unknown iff all its direct references are known, and then is its full unfolding. |
| ListResolver.ResolveList | userspace/engine/rule_loader_compiler.cpp:180-251 | The search and replace loop ends and computes the specified text; for a bare name it reports use iff the name is a word of the text. |
| ListResolver.Substitute | userspace/engine/rule_loader_compiler.cpp:191-248 | One substitution, with blanks and a comma of an empty list consumed, and the place where the search goes on. |
| ListResolver.Edges | userspace/engine/rule_loader_compiler.cpp:197-232 | How far a substitution reaches to both sides; for an empty list the comma on the left is preferred. |
| ListResolver.JoinItems | userspace/engine/rule_loader_compiler.cpp:208-219 | The inserted text. |
| ListResolver.JoinReadsAsItems | userspace/engine/rule_loader_compiler.cpp:208-219 | For bare items the inserted text reads as the items separated by commas. |
| ListResolver.InsertedReadsBack | userspace/engine/rule_loader_compiler.cpp:208-219 | Items of any kind, if each is written as one value, are read back as these values when the inserted text stands in parentheses. |
| ListResolver.EmptyListIsTakenOut | userspace/engine/rule_loader_compiler.cpp:221-232 | In a list of words an empty list takes its name out together with one comma: what is left is the list of the other words. |
| ListResolver.ListIsPutIn | userspace/engine/rule_loader_compiler.cpp:208-219 | In a list of words a list that is not empty takes the place of its name: the result is the list of all the items. |
| ListResolver.ResolvedReadsExpanded | userspace/engine/rule_loader_compiler.cpp:180-251 | For every text, bare name and list: the new text reads as the old one with every word that is the name replaced by the items, inserted text never expanded again, iff no name is missed (it stands right behind a substitution that leaves nothing on its left) or the list is just its own name. What is missed is told from the text alone: leading commas are counted, and an empty list takes one. |
| ListResolver.NotMissedBehindOther | userspace/engine/rule_loader_compiler.cpp:180-251 | Nothing goes wrong when the text, or for an empty list the text behind its leading commas, does not begin with the name. |
| ListResolver.MissedExample | userspace/engine/rule_loader_compiler.cpp:245-248 | The failing case is real: in "l l" the second name stays. |
| ListResolver.MissedBehindComma | userspace/engine/rule_loader_compiler.cpp:221-248 | It also occurs behind a comma that an empty list takes with it: in ",l l" the second name stays. |
| ListResolver.ReplacedShrinks | userspace/engine/rule_loader_compiler.cpp:234-248 | What is left to search shrinks with every substitution. |
| LiveSources.RunIsSafe | userspace/falco/app/actions/process_events.cpp:489-583 | In every run, with any number of sources, any failure to open and any interleaving: neither finish() nor join() throws, each happens at most once per context, a worker never finds itself finished, what is merged is the final result although it is written after finish(), and termination is forced before waiting iff there has been an error. |
| LiveSources.WaitsForAWorker | userspace/falco/app/actions/process_events.cpp:486-556 | The main thread never blocks while opening, and in the termination loop it blocks only while some worker still has its release to make. |
| LiveSources.NeverStuck | userspace/falco/app/actions/process_events.cpp:489-583 | No reachable state short of the end is a deadlock. |
| LiveSources.StepLowersRank | userspace/falco/app/actions/process_events.cpp:489-583 | Every step of every thread lowers a rank, so the termination loop cannot go on for ever. |
| LiveSources.RunIsBounded | userspace/falco/app/actions/process_events.cpp:489-583 | No run is longer than its initial rank. |
| LiveSources.RunEndsWell | userspace/falco/app/actions/process_events.cpp:535-583 | A run that has come to rest is done: every context finished and joined exactly once, every result merged once. The result succeeds iff every source was opened and every worker succeeded; its error is the error of the last opening and the errors of the contexts in the order they were joined, empty ones left out, one a line; it proceeds iff nothing was thrown and the last opening and all workers say so. These errors and results are the ones the actions of the run brought. |
| LiveSources.MergeAllReports | userspace/falco/app/run_result.h:55-68 | Merging results joins the errors that are not empty by line breaks, in order. |
| LiveSources.MergedIsFinal | userspace/falco/app/actions/process_events.cpp:381-392 | At the merge the shared slot holds the final result of its worker. |
| LiveSources.StepKeepsInv | userspace/falco/app/actions/process_events.cpp:489-583 | Every step of the main thread or a worker keeps the invariant: semaphore count, flags, threads and merged results agree. |
| LiveSources.RunKeepsInv | userspace/falco/falco_semaphore.h:39-57 | So does every run; the count is the permits of sources not opened plus releases minus waits, and never negative. |
| Wildcard.MatchIsGlob | userspace/engine/falco_utils.cpp:212-252 | A name is accepted only if the glob matches it. |
| Wildcard.GlobIsMatch | userspace/engine/falco_utils.cpp:212-252 | For patterns without a star or ending in one, every name the glob matches is accepted. |
| Wildcard.ClosedMisses | userspace/engine/falco_utils.cpp:232-240 | For every other pattern there is a name the glob matches and the code refuses. |
| Wildcard.ExactIffOpen | userspace/engine/falco_utils.cpp:212-252 | The code decides the glob for all names iff the pattern has no star or ends in one. |
| Wildcard.TailAccepted | userspace/engine/falco_utils.cpp:221-240 | A literal behind the last star is accepted iff its first occurrence behind the shortest match of what comes before ends the name. |
| RulesetSpec.SelectsMeans | userspace/engine/indexable_ruleset.h:212-262 | The four ways to select rules are equality, occurrence of a substring, the glob (for patterns it decides) and a common tag; the empty pattern selects all. |
| RulesetSpec.LastOpWins | userspace/engine/indexable_ruleset.h:196-276 | After any history a known rule is enabled in a ruleset iff the last operation on that ruleset that concerned it was an enable. |
| RulesetSpec.OtherRulesetsApart | userspace/engine/indexable_ruleset.h:196-276 | Operations on other ruleset ids change nothing. |
| RulesetSpec.EnabledIsKnown | userspace/engine/indexable_ruleset.h:207-242 | Only known rules are ever enabled. |
| RulesetSpec.KnownIffAdded | userspace/engine/indexable_ruleset.h:53-60 | A rule is known iff it was added and nothing was cleared since. |
| Ruleset.RulesetFilters.AddFilter | userspace/engine/indexable_ruleset.h:287-308 | Keeps the buckets, the catch-all list and the set in agreement; exactly the buckets of the codes get the filter, once, at the end. |
| Ruleset.RulesetFilters.RemoveFilter | userspace/engine/indexable_ruleset.h:310-328 | The same for removal. |
| Ruleset.RulesetFilters.RunFirst | userspace/engine/indexable_ruleset.h:342-363 | Finds something iff the all-match list is not empty, and then its head. |
| Ruleset.RulesetFilters.RunAll | userspace/engine/indexable_ruleset.h:367-388 | Appends the accepted filters of the bucket, or if there are none those of the catch-all list. |
| Ruleset.RunWrappersFirst | userspace/engine/evttype_index_ruleset.cpp:69-81 | The first filter of a list that accepts the event. |
| Ruleset.RunWrappersAll | userspace/engine/evttype_index_ruleset.cpp:83-97 | All filters of a list that accept the event, in order. |
| Ruleset.GenericRunComplete | userspace/engine/indexable_ruleset.h:367-388 | The generic index misses an enabled match iff both a typed and an untyped filter accept the event, and then finds the typed ones. |
| Ruleset.EvttypeRuleset.Add | userspace/engine/evttype_index_ruleset.cpp:34-62 | A new rule whose event codes always contain the asynchronous event, so they are never empty. |
| Ruleset.EvttypeRuleset.Clear | userspace/engine/indexable_ruleset.h:53-60 | All rules are forgotten and all rulesets emptied. |
| Ruleset.EvttypeRuleset.EnabledCount | userspace/engine/indexable_ruleset.h:62-70 | The number of rules enabled according to the history. |
| Ruleset.EvttypeRuleset.EnsureRuleset | userspace/engine/indexable_ruleset.h:202-205 | Growing the vector of rulesets changes no ruleset. |
| Ruleset.EvttypeRuleset.ToggleRules | userspace/engine/indexable_ruleset.h:196-276 | Every known rule that is selected, and no other, is added to or removed from the ruleset, in whatever order the set is walked; buckets of other rulesets stay. |
| Ruleset.EvttypeRuleset.ToggleIn | userspace/engine/indexable_ruleset.h:207-242 | The loop over all known rules. |
| Ruleset.EvttypeRuleset.MatchingIsExact | userspace/engine/indexable_ruleset.h:279-447 | In every reachable state the index finds exactly the enabled rules whose codes contain the type of the event and whose filter accepts it, each once. |
| Ruleset.EvttypeRuleset.RunAll | userspace/engine/indexable_ruleset.h:145-153 | Appends exactly those rules. |
| Ruleset.EvttypeRuleset.RunFirst | userspace/engine/indexable_ruleset.h:135-143 | The head of the all-match list; one is empty iff the other is. |
| Stats.StatsManager.OnRuleLoaded | userspace/engine/stats_manager.cpp:67-77 | Counters grow to cover the rule, keep their values, and the total stays the sum over rules and over priorities. |
| Stats.StatsManager.OnEvent | userspace/engine/stats_manager.cpp:79-89 | Counts once in all three places, or refuses and changes nothing iff the rule is out of bounds. |
| Stats.TotalIncremented | userspace/engine/stats_manager.cpp:79-89 | Raising one counter raises the sum by one. |
| Stats.StepKeepsBalance | userspace/engine/stats_manager.cpp:79-89 | With any number of threads, each counting in three atomic steps: every step keeps the total equal to each sum plus the matches still to be added to it. |
| Stats.TotalsAgree | userspace/engine/stats_manager.cpp:79-89 | So over every interleaving the total equals the sum over rules and the sum over priorities whenever no match is being counted, and is never ahead by more than the number of threads. |
| Stats.EachIsCounted | userspace/engine/stats_manager.cpp:79-89 | Over every interleaving each counter grows by the matches reported for its rule or its priority, less those still being counted. |
| Loading.CompileRules | userspace/engine/rule_loader_compiler.cpp:476-579 | Fails iff some rule with a known source does; else every rule with a known source that compiles has exactly one entry with its name, source, priority, tags, filter, codes and enabled flag, in the order collected, and there is nothing else; ids are positions, names unique, sources known. |
| Loading.CompiledTranslates | userspace/engine/rule_loader_compiler.cpp:476-579 | The correspondence between compiled and collected rules: an increasing map of places onto the rules to be compiled. |
| Loading.NameSelectsOne | userspace/engine/indexable_ruleset.h:214-219 | Among the rules of a source the exact name of a rule selects that rule only. |
| Loading.BucketStep | userspace/engine/falco_engine.cpp:248-255 | Enabling or disabling rule after rule keeps every bucket in ascending order of ids. |
| Loading.LoadedMatches | userspace/engine/falco_engine.cpp:213-257 | A bucket filled by a load finds what a plain scan of the compiled rules finds, in the same order. |
| Loading.FiringHead | userspace/engine/falco_engine.cpp:213-257 | The scan finds something iff some rule fires, and its head is the one with the lowest id. |
| Engine.NewRuleset | userspace/engine/filter_ruleset.h:84-97 | A new ruleset holds exactly the rules of its source within the minimum priority, one wrapper each, none enabled. |
| Engine.LoadOne | userspace/engine/falco_engine.cpp:242-255 | One turn of the loop for the source of the rule. |
| Engine.EnableDefault | userspace/engine/falco_engine.cpp:224-256 | One turn of the loop for all sources; a source is always found. |
| Engine.InsertRule | userspace/engine/falco_engine.cpp:234-240 | The inserted rule gets the id the compiler gave it, so the mismatch is never thrown. |
| Engine.LoadInto | userspace/engine/falco_engine.cpp:213-257 | After the loops every source holds its rules with exactly the enabled ones in the default ruleset, in id order, none in any other ruleset, and nothing was thrown. |
| Engine.LoadStats | userspace/engine/falco_engine.cpp:259-266 | Counters start at zero and cover every loaded rule. |
| Engine.MatchesAfterLoad | userspace/engine/falco_engine.cpp:213-257 | Right after a load, what the default ruleset of a source finds is the plain scan of the compiled rules: enabled, of that source, within the priority, of the type of the event, accepted, in id order; so the first match is the lowest id. |
| Engine.FalcoEngine.constructor | userspace/engine/falco_engine.cpp:52-71 | An engine starts with the default ruleset id, no sources, rules or counts. |
| Engine.FalcoEngine.LoadRules | userspace/engine/falco_engine.cpp:194-269 | Never throws; succeeds iff the file is read, the macros can be parsed and resolved, and no rule of a known source fails; a failed load leaves rules, rulesets and counters as they were. |
| Engine.MacrosCompile | userspace/engine/rule_loader_compiler.cpp:588-600 | The macros compile iff they can be parsed and resolved. |
| Engine.FalcoEngine.FindRulesetId | userspace/engine/falco_engine.cpp:364-373 | Different ruleset names have different ids, and known ids do not change. |
| Engine.FalcoEngine.AddSource | userspace/engine/falco_engine.cpp:487-499 | A source of that name starts over with an empty ruleset, the others stay. |
| Engine.FalcoEngine.EnableRules | userspace/engine/falco_engine.cpp:271-356 | The selection is applied to every source in the ruleset of that name. |
| Engine.FalcoEngine.ProcessEvent | userspace/engine/falco_engine.cpp:407-463 | Returns all matches of the source or the first one, counts each once under its id and its priority, and the out-of-bounds exception is never thrown for a rule returned by a run. |
| Engine.CountAll | userspace/engine/falco_engine.cpp:447-460 | The counting loop. |
| IndexedVectors.IndexedVector.Insert | userspace/engine/indexed_vector.h:77-90 | Overwrites in place or appends, and keeps the name index exact. |
| IndexedVectors.IndexedVector.Find | userspace/engine/indexed_vector.h:109-116 | Finds the position of a name iff it was inserted. |
| IndexedVectors.IndexedVector.Clear | userspace/engine/indexed_vector.h:58-62 | Empties vector and index. |
| CollectorSpec.BodyIsDefinitionAndAppends | userspace/engine/rule_loader_collector.cpp:186-221 | For every history: the body is that of the last definition followed by all later appends, in order. |
| CollectorSpec.BodyIsLastSetAndAppends | userspace/engine/rule_loader_collector.cpp:186-389 | For every history and every known name: the body is that of the last definition or of the last replacement that brought one, whichever is later, followed by all later appends, in order; a replacement without a condition changes no body. |
| CollectorSpec.ClockCounts | userspace/engine/rule_loader_collector.cpp:186-389 | The clock counts the definitions, appends and replacements since everything was last cleared. |
| CollectorSpec.IndexIsFirstDefinition | userspace/engine/rule_loader_collector.cpp:34-50 | The index is the clock at the first definition. |
| CollectorSpec.VisibilityIsLastChange | userspace/engine/rule_loader_collector.cpp:52-62 | The visibility is the clock at the last definition, append or replacement. |
| CollectorSpec.IndexesDiffer | userspace/engine/rule_loader_collector.cpp:34-50 | No two names have the same index, also across kinds. |
| CollectorSpec.IndexBehindClock | userspace/engine/rule_loader_collector.cpp:34-50 | Index, visibility and clock come in this order. |
| CollectorSpec.KnownIffDefined | userspace/engine/rule_loader_collector.cpp:119-126 | A name is known iff it was defined since everything was last cleared. |
| Collector.DefineInfo | userspace/engine/rule_loader_collector.cpp:34-50 | Keeps a vector exact against the history and sorted by index, when a name is new and when it is not. |
| Collector.UpdateInfo | userspace/engine/rule_loader_collector.cpp:52-62 | The same for appends and replacements. |
| Collector.Collector.DefineList | userspace/engine/rule_loader_collector.cpp:186-189 | The list has the items given, and the vector is what the history says. |
| Collector.Collector.AppendList | userspace/engine/rule_loader_collector.cpp:191-197 | The items are added behind those of that list only; refused iff the list is unknown, without any change. |
| Collector.Collector.DefineMacro | userspace/engine/rule_loader_collector.cpp:199-202 | The macro has the condition given, and the vector is what the history says. |
| Collector.Collector.AppendMacro | userspace/engine/rule_loader_collector.cpp:204-211 | The condition of that macro only gets a space and the new one; refused iff the macro is unknown. |
| Collector.Collector.DefineRule | userspace/engine/rule_loader_collector.cpp:213-237 | Refused, without any change, iff the rule exists with another source or one of its exceptions has no fields or fails validation; else the rule holds the exceptions with their operators filled in. |
| Collector.CheckExceptions | userspace/engine/rule_loader_collector.cpp:228-234 | All exceptions are accepted iff each has fields and passes validation. |
| Collector.Collector.AppendRule | userspace/engine/rule_loader_collector.cpp:239-320 | Refused iff there is nothing to append, no such rule, or its source has gone; a condition that is not empty is appended behind a space, to that rule only. |
| Collector.Collector.ReplaceRule | userspace/engine/rule_loader_collector.cpp:322-389 | Refused under the same conditions; the condition and the enabled flag of that rule are those of the update where it has them and the old ones otherwise; the visibility moves. |
| Collector.Collector.EnableRule | userspace/engine/rule_loader_collector.cpp:391-398 | Changes the enabled flag only; neither clock nor visibility move. |
| Collector.Collector.Clear | userspace/engine/rule_loader_collector.cpp:119-126 | Everything is forgotten and the clock starts again. |
| Collector.IndexesAcrossKinds | userspace/engine/rule_loader_collector.cpp:186-237 | Across the three vectors no two entries share an index. |
| Pipeline.MacrosAreCollected | userspace/engine/rule_loader_compiler.cpp:385-393 | Whatever was collected meets what the macro compiler asks for. |
| Pipeline.ReferencesWereDefinedBefore | userspace/engine/rule_loader_compiler.cpp:253-270 | If the macros compile, every macro was first defined before the last change of each macro that mentions it. |
| Pipeline.AcceptsIffRaw | userspace/engine/rule_loader_compiler.cpp:403-427 | A filter made from the resolved condition of a rule accepts an event iff the raw condition of the rule holds on it, under every reading of the macro names that agrees with the raw definitions. |
| Pipeline.LoadedRulesMeanRaw | userspace/engine/falco_engine.cpp:213-257 | From end to end: after a load, what an event matches in the default ruleset of a source is exactly the collected rules that have a known source and compile, belong to that source, are enabled, are within the minimum priority, listen to the type of the event, and whose raw condition, macros unfolded, holds on it; in the order collected, with their name, source, priority and tags. |
| Exceptions.Validated | userspace/engine/rule_loader_collector.cpp:64-117 | Accepted iff the operators given, or those filled in, are as many as the fields and known (for a single field one of three), and the fields are known when the source is; nothing else changes. |
| Exceptions.Comps | userspace/engine/rule_loader_collector.cpp:68-101 | Given operators are kept; missing ones are filled in: in for a single field, = for each of several. |
| ExceptionText.BuildCondition | userspace/engine/rule_loader_compiler.cpp:73-155 | Refused iff a value does not fit its fields; else the text is the condition in parentheses followed by the exceptions that have values, and the field set is theirs. It asks only that the operators the code indexes are there. |
| ExceptionText.FieldsMean | userspace/engine/rule_loader_compiler.cpp:94-142 | The fields collected are exactly those of exceptions that have values. |
| ExceptionText.WriteSingle | userspace/engine/rule_loader_compiler.cpp:83-100 | The text of a single-field exception; refused iff a value is a list. |
| ExceptionText.WriteRows | userspace/engine/rule_loader_compiler.cpp:101-152 | The text of a field-list exception; refused iff a row has another length than the fields. |
| ExceptionText.WriteRow | userspace/engine/rule_loader_compiler.cpp:111-145 | The text of one row of values. |
| ExceptionText.WriteNested | userspace/engine/rule_loader_compiler.cpp:116-127 | The text of a nested list of values. |
| ExceptionText.WriteOperand | userspace/engine/rule_loader_compiler.cpp:116-140 | The text of one value: a nested list, a text put in parentheses, or a quoted text. |
| Exceptions.BuiltReadsIff | userspace/engine/rule_loader_compiler.cpp:73-155 | For every condition text that is read as c and all exceptions: the built text is read as c and none of the exceptions iff every exception is sound. Sound is a test on fields, operators and values alone: fields are names, operators are operators, each value is written as one value, or as a list where the operator takes one. |
| Exceptions.BuiltMeans | userspace/engine/rule_loader_compiler.cpp:73-155 | For sound exceptions the built text is readable, and true on an event iff c is and no exception matches: no value of a single field compares, and no row in all its fields, said of the values themselves and not of the text. |
| Exceptions.WrittenAsOne | userspace/engine/rule_loader_compiler.cpp:36-42 | A value survives quoting as one value iff it has plain characters only, or has a space and neither an unescaped quotation mark nor a backslash at its end, or is a quoted text itself. |
| Exceptions.OperandIff | userspace/engine/rule_loader_compiler.cpp:116-140 | A value is sound for its operator iff the operand that is meant is well formed. |
| Exceptions.ListTextReads | userspace/engine/rule_loader_compiler.cpp:44-50 | The text of a list, with its parentheses or without, stands for its values. |
| Exceptions.BuiltLexes | userspace/engine/rule_loader_compiler.cpp:79-153 | The tokens of the built text are those of the condition in parentheses, and for each exception and, not, and its comparisons. |
| Exceptions.BuiltTokensRead | userspace/engine/rule_loader_compiler.cpp:79-153 | These tokens are read as the condition and not each exception. |
| Exceptions.ExceptionMeans | userspace/engine/rule_loader_compiler.cpp:83-152 | One exception is true iff one of its values or rows matches. |
| Exceptions.WithoutValues | userspace/engine/rule_loader_compiler.cpp:147-153 | Exceptions without values add nothing. |
| ExceptionFailures.UnclosedList | userspace/engine/rule_loader_compiler.cpp:44-50 | The condition is needed: with the value (a under in, every condition becomes unreadable. |
| ExceptionFailures.SplitValue | userspace/engine/rule_loader_compiler.cpp:36-42 | The condition is needed: with the value x)or(y under =, every condition is read as another one than meant. |
| ConditionLexer.LexOn | userspace/engine/rule_loader_compiler.cpp:307-312 | The tokens of a text are not changed by a closing parenthesis, and or or behind it. |
| ConditionLexer.WrittenIsTaken | userspace/engine/rule_loader_compiler.cpp:116-127 | Values separated by commas and closed by a parenthesis are read back as these values. |
| ConditionText.OrsOn | userspace/engine/rule_loader_compiler.cpp:307-312 | Reading a chain is not changed by what follows unless that continues it. |
| ConditionText.InParentheses | userspace/engine/rule_loader_compiler.cpp:79 | A condition in parentheses is read as the condition. |
| ConditionText.ReadTextWellFormed | userspace/engine/rule_loader_compiler.cpp:307-312 | Whatever is read from a text has proper names, operators and values in its comparisons, and at least two parts in each and and or. |
| Duration.ParseInterval | userspace/engine/falco_utils.cpp:62-120 | A text of the ordered grammar gives the 64-bit sum of its counts, any other text 0; blanks do not matter. |
| Duration.RoundTrip | userspace/engine/falco_utils.cpp:36-120 | Any counts written in order in decimal with their units y w d h m s ms, with blanks anywhere, are read back as the milliseconds they stand for, modulo 2 to the 64; a count of more than 64 bits is an exception. A year has 365 days and a week 7. |
| Duration.StrippedJoins | userspace/engine/falco_utils.cpp:66 | Removing blanks from a text is removing them from its parts. |
| Duration.WrittenIsMatch | userspace/engine/falco_utils.cpp:33 | A written text is matched in just the way it was written, whatever the overlap of `m` and `ms`. |
| Duration.MatchIsWritten | userspace/engine/falco_utils.cpp:33 | What is matched is a text of the grammar. |
| Duration.Unambiguous | userspace/engine/falco_utils.cpp:33 | No text of the grammar can be read in two ways. |
| Duration.DecimalIff | userspace/engine/falco_utils.cpp:110 | A count is read as the decimal number it looks like iff it has no leading zero, or nothing follows its zeros but at most one octal digit. |
| Duration.ReadsOctal | userspace/engine/falco_utils.cpp:110 | The exception is real: the count "010" is read as eight. |
| Duration.DecimalIsRead | userspace/engine/falco_utils.cpp:110 | Printing and reading one count gives it back if it has 64 bits, and is an exception otherwise. |
| SignalHandler.ActionsNeverOverlap | userspace/falco/atomic_signal_handler.h:96-126 | Over every interleaving at most one action runs at a time. |
| SignalHandler.AtMostOneAction | userspace/falco/atomic_signal_handler.h:96-126 | In a stretch that begins triggered and has no store by trigger() or reset(), at most one action starts, plus one for each action that ended in an exception the handler does not catch. |
| SignalHandler.OneActionPerTrigger | userspace/falco/atomic_signal_handler.h:74-126 | Each further trigger() allows one action more. |
| SignalHandler.ActionsFromStart | userspace/falco/atomic_signal_handler.h:74-126 | From the start, n calls of trigger() make at most n + 1 actions if nothing is reset. |
| SignalHandler.TwoActionsForOneTrigger | userspace/falco/atomic_signal_handler.h:74-78 | The one more is possible: a handler between the two stores of trigger(). |
| SignalHandler.OnePerTriggerOutside | userspace/falco/atomic_signal_handler.h:74-126 | Without resets, actions are at most the calls of trigger() plus the actions that started while some call was between its two stores; if none does, there is at most one action per call (uncaught exceptions counted). |
| SignalHandler.ActionsAccount | userspace/falco/atomic_signal_handler.h:74-126 | The exact count for every run without resets: actions are what could start at the beginning and no more at the end, plus the calls of trigger() that rearmed the signal, plus uncaught exceptions. |
| SignalHandler.OnePerTriggerIff | userspace/falco/atomic_signal_handler.h:74-126 | So from the start there is at most one action per call iff some call did not rearm the signal or an action could still start. |
| SignalHandler.ExactlyOneAction | userspace/falco/atomic_signal_handler.h:80-126 | Among calls made while the signal is triggered and not handled, once any has returned exactly one action has started. |
| SignalHandler.WaitsForAction | userspace/falco/atomic_signal_handler.h:98-123 | A caller that passed the first check takes no step until the running action has ended. |
| SignalHandler.FlagsAreLastStores | userspace/falco/atomic_signal_handler.h:40-95 | In every run the two flags say which store came last: triggered iff a trigger() came after every reset(), handled iff an action was recorded after every trigger() and reset(). |
| SignalHandler.ReturnsTruth | userspace/falco/atomic_signal_handler.h:96-126 | A call of handle() that has taken the lock returns true, or the exception of the action, iff it started the action. |
| SignalHandler.ReturnsIff | userspace/falco/atomic_signal_handler.h:96-126 | A call of handle() ends at once, without the lock, iff the signal is not triggered or has been handled, and else with the unlock. |
| SignalHandler.RunKeepsInv | userspace/falco/atomic_signal_handler.h:100 | The mutex has an owner exactly while a thread is between lock and unlock. |
| GrpcContexts.OneOperationOneThread | userspace/falco/grpc_server.cpp:82-132 | With any number of threads, a context has at most one outstanding operation, none while a thread works on it, and never two threads. |
| GrpcContexts.PostIsLast | userspace/falco/grpc_request_context.cpp:27-213 | Posting an operation is the last access of a thread to a context, and every access goes through a pointer that is there. |
| GrpcContexts.StreamIsThere | userspace/falco/grpc_request_context.cpp:41-76 | In every reachable state: whenever the state is WRITE the stream context exists, or a thread is about to create it; it is active when no thread is at work; a context with neither operation nor thread is one whose request failed. |
| GrpcContexts.StreamNotYetThere | userspace/falco/grpc_request_context.cpp:45-49 | The exception is real: a reachable state in which the state is WRITE and the stream context is about to be created. |
| GrpcContexts.DispatchIsSafe | userspace/falco/grpc_server.cpp:86-128 | Every completed operation is answered by a handler that ends in one fitting operation, or was a failed request. |
| GrpcContexts.AnswerIsSafe | userspace/falco/grpc_request_context.cpp:51-76 | So is the second half of process(), whatever the service function said. |
| GrpcContexts.EndIsSafe | userspace/falco/grpc_request_context.cpp:78-105 | So is end() followed by start(), for all three kinds. |
| GrpcContexts.ProcessIsSafe | userspace/falco/grpc_request_context.cpp:42-200 | So is the first half of process(). |
| GrpcContexts.StepKeepsInv | userspace/falco/grpc_server.cpp:82-132 | Every step of every thread keeps this. |
| GrpcContexts.ResponsesAccountedFor | userspace/falco/grpc_server.cpp:269-302 | In every run the initial queue followed by the pushed responses is the taken ones followed by the queue, so each is taken at most once and in push order; every response taken was sent once, is about to be, or was given up, and none is given up while the server runs. |
| GrpcContexts.AskedIsAnswered | userspace/falco/grpc_request_context.cpp:51-76 | In every reachable state: a stream that looks whether the server runs learns the truth; one that asks takes the head of the queue if there is one, and goes on to write it, to read or to finish as the source does; a version call finishes. |
| GrpcContexts.DispatchPosts | userspace/falco/grpc_server.cpp:86-128 | A failed request leads to nothing, any other failure and a finished call to a new request, else the call goes on. |
| GrpcContexts.StartRenews | userspace/falco/grpc_request_context.cpp:27-39 | A context that is requested again has had its server context, writer, request and stream context replaced before. |
| GrpcContexts.EndTellsHow | userspace/falco/grpc_request_context.cpp:78-105 | A stream that ends is told an error iff its operation failed, and a success iff it finished. |
| GrpcContexts.StoppedIff | userspace/falco/grpc_server.cpp:260-267 | The server is stopped iff someone has stopped it. |
| OutputsQueue.RunAccounted | userspace/falco/falco_outputs.cpp:278-295 | In every run each pushed message was dropped, cleared, taken or is queued, exactly one of these; taken and queued messages are in push order; drops counted and uncounted make up the dropped. |
| OutputsQueue.DroppedIffFull | userspace/falco/falco_outputs.cpp:278-295 | In every run the queue never holds more than its capacity, and a message is dropped iff the queue was full when it was pushed; so a run whose queue never fills drops nothing. |
| OutputsQueue.MessagesAreGenuine | userspace/falco/falco_outputs.cpp:239-276 | In every run the message with ticket n is the n-th pushed and of that kind, whether taken, queued or seen by an output. |
| OutputsQueue.OutputsSeeAll | userspace/falco/falco_outputs.cpp:300-350 | Each output sees the messages neither dropped nor cleared, in push order, once each, and nothing after the first STOP. |
| OutputsQueue.RunDelivered | userspace/falco/falco_outputs.cpp:310-331 | Outputs differ only in the message at hand, and the worker ends with its first STOP. |
| OutputsQueue.WatchdogDelivers | userspace/falco/falco_outputs.cpp:252-269 | With capacity at least 1 and no producers, once the watchdog has fired a STOP was taken or is queued even if the first was dropped or cleared, so the worker does not wait in vain. |
| OutputsQueue.ShutdownIsBounded | userspace/falco/falco_outputs.cpp:252-269 | Once the shutdown has begun no run goes on for ever. |
| OutputsQueue.RestsOnlyWhenJoined | userspace/falco/falco_outputs.cpp:252-269 | It comes to rest only when the worker has ended and was joined. |
| RestartWatcher.Watch | userspace/falco/app/restart_handler.cpp:111-215 | Signals a restart in the first turn t for which t-2 was an event, t-1 and t were quiet and the dry run made in t-1 succeeded; makes dry runs exactly in quiet turns behind an event; the two pending flags are never both set. |
| RestartWatcher.TurnsMean | userspace/falco/app/restart_handler.cpp:136-205 | A turn is an event iff nothing failed and bytes were read or a restart was forced, and quiet iff select found nothing and none was forced. |
| RestartWatcher.RestartMeans | userspace/falco/app/restart_handler.cpp:136-205 | A restart is due iff there was something to see two turns ago, the dry run made in the last turn succeeded, and nothing was seen since. |
| RestartWatcher.TriggerIsSeenIff | userspace/falco/app/restart_handler.cpp:136-138 | With the flag as shared memory: a trigger() survives to the next load iff it was not made between a load and its store, and the load finds the flag set iff this or a later call was not. |
| RestartWatcher.TriggerMakesEvent | userspace/falco/app/restart_handler.cpp:136-140 | So a turn in which select reports nothing is an event turn iff this call or a later one was made outside that window. |
| RestartWatcher.LostTrigger | userspace/falco/app/restart_handler.cpp:136-138 | A call can be lost: an interleaving in which the next load does not see it. |
| Watchdog.FreedExactlyOnce | userspace/falco/watchdog.h:38-85 | Over every interleaving no record is freed twice; when the watchdog is stopped every record has been freed exactly once iff the owner has neither set nor cancelled since the last stop. |
| Watchdog.SetWithoutStart | userspace/falco/watchdog.h:64-82 | The exception is real: a timeout set on a watchdog that was never started is still there after stop(). |
| Watchdog.StopLeavesNothing | userspace/falco/watchdog.h:64-75 | When stop() of a running watchdog returns, every record ever allocated has been freed exactly once. |
| Watchdog.CalledAtMostOnce | userspace/falco/watchdog.h:47-58 | The callback runs at most once per armed record, only after its deadline, and never for a record replaced before it was picked up. |
| Watchdog.DueIsCalled | userspace/falco/watchdog.h:44-58 | A record in the slot when the poller empties it is called back with its payload by the next test after its deadline, as long as no other was picked up. |
| Watchdog.StopStops | userspace/falco/watchdog.h:64-75 | Whenever stop() of a running watchdog returns, whatever the poller did meanwhile, nothing polls any more and every record has been freed exactly once. |
| Watchdog.PollsWhileRunning | userspace/falco/watchdog.h:38-62 | As long as the watchdog runs there is a poller. |
| Watchdog.StepOwned | userspace/falco/watchdog.h:38-85 | Every step keeps each record in exactly one place. |

## Left out

- The filter library: its filters, event-code extraction, inspectors and plugins. A filter is a predicate on events, event codes are given sets, a parsed condition is a tree, and the numeric codes of plugin and asynchronous events are parameters.
- Of the filter library's grammar: numbers, field arguments and transformers, comparisons of two fields, the undoing of escapes inside quoted values, and the limit on nesting.
- Reading YAML, error contexts, rule descriptions, output formatting, metrics text and logging. Logging is taken not to throw.
- Output back ends, the web server, TLS, file hashing, inotify and `select`; the restart loop takes what they report as input.
- Random sampling of events: the multiplier is 0, its default.
- Compiling lists (`compile_list_infos`): one level of substitution without branching of interest.
- Priorities, descriptions, outputs and tags in rule updates, which are handled like the condition.
- Collector.Collector.AppendRule: exceptions in the update, and the partial effect of an append that throws in them, are not modelled.
- Collector.Collector.ReplaceRule: only the condition and the enabled flag of the update are modelled.
- Loading.CompileRules: parsing a condition, resolving its lists and making its filter come as a given verdict; Pipeline.LoadedRulesMeanRaw says what the filter of a compiled rule means.
- ExceptionText.BuildCondition: the source indexes behind the end of the operators when an exception that was never validated has fewer of them than fields; this is undefined there and excluded here.
- Wrap-around of the collector clock (32 bits) and of ruleset ids (16 bits).
- Memory orders weaker than sequential consistency, spurious failures of compare-exchange (they change nothing), and the stability of pointers into the vector of contexts.
- Liveness of output channels: an output that blocks for ever blocks the worker, about which the watchdog only logs.
- MacroCompiler.CompileMacros: macro conditions are given as trees; parsing them is the filter library's.
- Duration.ParseInterval: the matching of the regular expression is modelled by trying each group present first; the regular expression engine itself is not.
