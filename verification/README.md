# ZnetServer: scheduler, fibers, configuration and logging, verified

This project models four parts of the server and proves what they keep. `dafny verify
dfyconfig.toml` checks it.

**The fiber scheduler.** Producers push fibers on a shared list under a mutex and notify when
the list was empty; workers wait on a condition variable, take the last fiber and switch into
it; `stop` sets a flag, wakes everybody and joins. `SchedulerProtocol` gives every agent a
program counter and makes the mutex, the wait set, spurious wakeups and the choice of
`notify_one` explicit (section 30.5 of ISO/IEC 14882:2011). `SchedulerSafety` proves what every
interleaving keeps, `SchedulerProgress` that stopping comes to an end, `SchedulerWork` that work
is dispatched without it, `SchedulerQueue` that the locked blocks, as methods on the fields, are
the steps of the protocol.

**Fibers.** `FiberMachine` models the control transfers between fibers and threads with the
thread-local variables read where the code reads them, `FiberObjects` the same on objects that
are updated in place. `FiberSystem` joins fibers and scheduler, says exactly which runs are
sound, and proves that in those fibers run faithfully on whatever threads dispatch them.
`FiberSharing` says when the callers of `schedule` keep runs sound, exactly for a lone worker, and
`FiberSelfScheduling` has the run that breaks a system with two. `SystemProgress` proves that
stopping is totally correct when every segment of every body counts as a step.

**Log patterns.** `LogPattern` specifies the nested scanning loop of `LogFormatter::init` and
proves that scanning is a bijection between strings and canonical lists of pieces; `PatternLaws`
derives when their pieces may be concatenated; `LogFormatting` proves the loops against the
specification and lifts it to tokens and format items; `PatternTokens` says letter by letter what
is a name and which name makes which item; `PatternSeams` says exactly when the items, and so the
output, of two patterns concatenate.

**Configuration.** `ConfigTree` flattens a YAML tree to dotted names, `ConfigVars` models a typed
variable with listeners and its history of calls, `Configuration` the registry and loading it.

**Logger reconciliation.** The meaning of a manager is, for each logger and event level, the
ordered list of (sink, path, pattern) that an event is emitted to. `LogDefines` models the
definitions and their YAML form, `LogDecoding` spells out what is decoded to what, `LoggerSpec` and
`LoggerReload` model the operations on values, `LoggerMeaning` spells out what they leave,
`LoggerHeap` and `LoggerManagement` model the objects that are updated in place, and `LoggersVariable`
closes the circle: from the text of a configuration, through the variable and its listener, to
the emissions, and back through the dump.

## Where the code does less than it seems to

The model follows the code. Where a promise suffers, a member says exactly what still holds:

- `%%` adds a percent sign but does not skip the second one, which opens a directive
  (server/log.cpp:353-360); literal text behind the last directive is never pushed. `LogPattern`
  states the partition of a pattern with that tail, and `PatternSeams.ItemsConcatenateExactly` when
  concatenation is harmless.
- `setPattern` keeps the old items (server/log.cpp:332-336): see
  `LogFormatting.SetPatternIsFreshExactly`.
- Keys with dots and empty keys make names collide (server/config.cpp:16-19): see
  `ConfigTree.NamesIdentifyNodesExactly`.
- The equality of appender definitions ignores level and formatter (server/log.h:320-322), so
  `setValue` can take a real change for none: see `LoggersVariable.SetTakesEffectExactly` and
  `LoggersVariable.AppenderLevelChangeIsMissed`.
- A file stream is opened on the first event (server/log.cpp:282-309), and a new path
  (server/log.cpp:524-525) does not close it, so a logger goes on writing to its old file until it
  is rebuilt: see `LoggerReload.OpenFileStaysOpen` and
  `LoggerReload.DumpAndReloadPreservesMeaningExactly`.
- `schedule` does not look at `m_stopping` (server/scheduler.cpp:75-85): see
  `SchedulerSafety.StopDrains`, `SchedulerProgress.LateWorkIsAccepted` and
  `SchedulerProgress.LateWorkIsStranded`.
- Nothing keeps a running or a finished fiber from being scheduled and switched into: see
  `FiberSystem.RunIsSoundExactly`, `FiberSharing.LoneWorkerIsSoundExactly` and
  `FiberSelfScheduling.SelfSchedulingIsUnsound`.

And three places where names or comments say more than the code does, which the model takes from
the code:

- A `}` in front of any brace counts as a character of a directive's name (server/log.cpp:370).
- `%p` is documented as the process number (server/log.h:111), but prints the level
  (server/log.cpp:63-71); `%T` and `%F` exist and are not documented.
- Neither `swapIn` nor `Yield` sets `EXEC` or `HOLD` (server/fiber.cpp:70-74, 107-120): the state
  of a fiber is `INIT` until it ends.

## Model

| member | source | states |
|---|---|---|
| SchedulerSafety.StepKeepsInv | server/scheduler.cpp:53-131 | every step of schedule, run and stop, by any agent and with any choice of woken sleeper, keeps mutual exclusion, the facts about program counters, conservation, the absence of lost wakeups, the homes of calls made by fiber bodies, and the facts about draining |
| SchedulerSafety.StepKeepsMutualExclusion | server/scheduler.cpp:53-114 | an agent is inside a locked block exactly when it holds the mutex, through every step |
| SchedulerSafety.OneHolder | server/scheduler.cpp:53-114 | in every run from start no two agents are inside a locked block at once |
| SchedulerSafety.WorkIsNeverForgotten | server/scheduler.cpp:75-114 | before stopping, a non-empty list always has a worker that is awake and has not left, or a caller of schedule that still owes a notification, although notification happens only on the empty-to-non-empty edge and after unlocking |
| SchedulerSafety.FibersAreConserved | server/scheduler.cpp:75-121 | in every run, for every fiber: pushes = occurrences in the list + in hands of workers + switches in, and switches in = on threads + switches out |
| SchedulerSafety.NoTwoWorkersHoldAFiber | server/scheduler.cpp:101-121 | a fiber pushed once is never held by two workers |
| SchedulerSafety.StopDrains | server/scheduler.cpp:53-131 | when all joins of stop are complete, the workers have exited, everything dispatched has come back, and the list is exactly what was pushed since the last worker found it empty, none of it by a fiber body; so everything scheduled was dispatched if and only if nothing was pushed since that look, and in particular if only fiber bodies pushed after m_stopping was set |
| SchedulerSafety.StrayExactly | server/scheduler.cpp:75-85 | stray pushes are those of callers other than fiber bodies while m_stopping is set, and no others |
| SchedulerProgress.StepDecreases | server/scheduler.cpp:53-131 | once m_stopping is set every step other than a new call of schedule decreases the measure, and a new call adds a fixed amount |
| SchedulerProgress.SomeStepIsEnabled | server/scheduler.cpp:53-131 | then, until stop has returned, some step is possible that is neither a new call nor a spurious wakeup |
| SchedulerProgress.StoppingRunsAreBounded | server/scheduler.cpp:53-131 | then no run is longer than the measure and what the new calls in it add |
| SchedulerProgress.StopCompletes | server/scheduler.cpp:53-131 | from any reachable point with m_stopping set every run is so bounded; when nothing but new calls can be done stop has returned; and if only fiber bodies pushed since the flag was set, the list is empty and the multisets of scheduled, dispatched and returned fibers are equal |
| SchedulerWork.StepMeasure | server/scheduler.cpp:75-131 | at any time, every step but a new call, a spurious wakeup and the call of stop decreases a measure, and those add no more than their charge |
| SchedulerWork.WorkIsDispatched | server/scheduler.cpp:75-131 | in every run the work is done without stop: runs are bounded by the measure and by what comes from outside, and when only that is left to do the list is empty, all workers sleep, and every fiber scheduled has been dispatched and is back |
| SchedulerProgress.LateWorkIsStranded | server/scheduler.cpp:75-131 | after the workers have exited, what is pushed stays in the list for ever and nothing more is dispatched |
| SchedulerProgress.LateWorkIsAccepted | server/scheduler.cpp:75-85 | schedule accepts a fiber in any state, stopping or not, so such work exists |
| SchedulerProgress.RunKeepsAgenda | server/scheduler.cpp:101-121 | for a lone worker and no new pushes, dispatched + in hand + reversed list never changes |
| SchedulerProgress.LoneWorkerIsLastInFirstOut | server/scheduler.cpp:101-121 | a lone worker given a fixed list dispatches a prefix of its reverse, and all of it by the time stop has returned |
| SchedulerQueue.Scheduler.Schedule | server/scheduler.cpp:75-85 | the locked block of schedule appends at the back, asks for a notification exactly when the list was empty, and is the push step of the protocol |
| SchedulerQueue.Scheduler.SetStopping | server/scheduler.cpp:55-58 | the first locked block of stop is the flag step of the protocol |
| SchedulerQueue.Scheduler.TakeLast | server/scheduler.cpp:110-113 | the block behind wait takes the last fiber, or none from an empty list, and is the take step of the protocol |
| SchedulerQueue.Scheduler.Run | server/scheduler.cpp:101-131 | run by a worker that nobody disturbs dispatches the list back to front, then leaves if the flag is set and falls asleep if it is not |
| FiberMachine.SwapInResumes | server/fiber.cpp:107-112 | otherwise swapIn resumes the fiber at its next segment and saves the loop as the context of the thread's scheduler fiber; the other two cases are below |
| FiberMachine.SwapInIsSoundExactly | server/fiber.cpp:107-112 | for any fiber and any free thread: the machine stays sound after swapIn if and only if the fiber is suspended and has segments left |
| FiberMachine.SwapInDoubles | server/fiber.cpp:107-112 | switching into a fiber that runs elsewhere puts both threads on it, the second at the start of the segment that the first is executing |
| FiberMachine.SwapInStrands | server/fiber.cpp:107-142 | switching into a finished fiber resumes behind its last swapOut, where neither it nor the thread can move |
| FiberMachine.SwapOutReturns | server/fiber.cpp:70-74 | swapOut, from Yield or from the end of MainFunc, returns to the loop of the thread the fiber is on now, whichever thread entered it before, with t_fiber that thread's scheduler fiber, and saves the point to resume |
| FiberMachine.ExecuteKeepsInv | server/fiber.cpp:122-142 | MainFunc starts its own fiber, a segment is executed once and in turn, no other fiber or thread is touched, and the last segment sets TERM or EXCEPT |
| FiberMachine.RunningFiberCanStep | server/fiber.cpp:107-142 | a fiber on a thread can always execute or switch out |
| FiberObjects.Process.constructor | server/scheduler.cpp:31-46 | fresh threads in the loop and fresh fibers show an initial machine |
| FiberObjects.Fiber.SwapIn | server/fiber.cpp:107-112 | on the objects: t_fiber becomes this fiber, the scheduler fiber's context is saved, this fiber's is resumed |
| FiberObjects.Fiber.SwapOut | server/fiber.cpp:114-120 | on the objects: t_fiber becomes the scheduler fiber, this context is saved, the scheduler fiber's is resumed |
| FiberObjects.Process.SwapIn | server/fiber.cpp:107-112 | the objects' swapIn is the machine's, for any aliasing of main and scheduled fibers that the identities allow |
| FiberObjects.Process.SwapOut | server/fiber.cpp:70-74 | the objects' Yield and final swapOut are the machine's |
| FiberObjects.Process.Execute | server/fiber.cpp:122-142 | the objects' MainFunc and segments are the machine's |
| FiberObjects.Process.Dispatch | server/scheduler.cpp:116-121 | a whole dispatch executes exactly the next segment, leaves every other fiber alone, and comes back to this thread's loop with t_fiber its scheduler fiber |
| FiberSystem.MoveIsSoundExactly | server/scheduler.cpp:93-131 | a move of the protocol and the fibers together keeps the machine sound exactly if it does not switch into a fiber that is running or finished, and then it keeps the whole joint invariant; nothing is asked of a push |
| FiberSystem.RunIsSoundExactly | server/scheduler.cpp:93-131 | a run stays sound all along if and only if every switch in it is into a fiber that is suspended and has segments left |
| FiberSystem.RunKeepsSystemInv | server/scheduler.cpp:93-131 | such runs keep the joint invariant |
| FiberSharing.DisciplineSuffices | server/scheduler.cpp:75-121 | with any number of workers a run is sound if every fiber is pushed only while it is not in the list, not with a worker and not finished |
| FiberSharing.LoneWorkerIsSoundExactly | server/scheduler.cpp:75-121 | with a lone worker a run is sound if and only if no fiber is dispatched more often than it has segments; fibers may be pushed at any time, also by themselves before they yield |
| FiberSharing.LoneWorkerSuffices | server/scheduler.cpp:75-121 | in particular if no fiber is scheduled more often than it has segments |
| FiberSharing.SoundIsWithinSegments | server/scheduler.cpp:75-121 | in a sound system no fiber has been dispatched more often than it has segments, whatever the number of workers |
| FiberSelfScheduling.SelfSchedulingIsUnsound | server/scheduler.cpp:75-121 | a run with two workers in which a fiber schedules itself before it yields: both threads end up on it, the second at the start of the segment that the first is executing |
| FiberSystem.RunProjects | server/scheduler.cpp:53-131 | every run of the joint system is a run of the protocol, so its theorems carry over |
| FiberSystem.ThreadLocalsAreRight | server/scheduler.cpp:93-121 | in every sound run, at the loop head t_fiber is the thread's own scheduler fiber, on a fiber it is that fiber, and no fiber is on two threads |
| FiberSystem.SwitchesAreReady | server/scheduler.cpp:116-121 | in every sound run, whenever a worker gets to a switch the objects it needs are there |
| FiberSystem.FibersRunFaithfully | server/fiber.cpp:107-142 | in every sound run, a suspended fiber that has come back n times has executed segments 0 to n - 1, each once and in order, on whatever threads; it has ended exactly when n is one more than its number of yields, with EXCEPT if it throws and otherwise with TERM and without its callback |
| FiberSystem.StopRunsEverything | server/scheduler.cpp:53-131 | in every sound run, when stop has returned and only fiber bodies pushed after the flag was set, every fiber has executed as many segments as it was scheduled times, in order |
| SystemProgress.MoveDecreases | server/scheduler.cpp:53-131 | with the segments of bodies counted as steps, once m_stopping is set every move other than a new call decreases a measure, and a new call adds a fixed amount |
| SystemProgress.SomeMoveIsEnabled | server/scheduler.cpp:53-131 | until stop has returned some move other than a new call or a spurious wakeup is possible |
| SystemProgress.StopCompletes | server/scheduler.cpp:53-131 | total correctness of stop: from any point of a sound run with m_stopping set the rest is bounded by a measure and the new calls in it; when nothing else is left stop has returned, and if only fiber bodies pushed since, the list is empty and every fiber has executed exactly as many segments as it was scheduled times |
| LogPattern.ScanIsCanonical | server/log.cpp:343-415 | the pieces of a scan partition the pattern: printed in turn with the discarded tail they give it back, no text is empty or adjacent to other text, and none is last |
| LogPattern.PrintThenScan | server/log.cpp:343-415 | conversely scanning undoes printing on every canonical piece list and tail, so scanning is a bijection |
| PatternLaws.ConcatenationIsExact | server/log.cpp:343-415 | the pieces of p + q are those of p followed by those of q if and only if the seam holds: no text is pending, or q has no directive; and the last directive of p is closed by a brace or q does not start with what it would draw in |
| LogFormatting.TokenRoundTrip | server/log.cpp:338-415 | parsing the printed form of a canonical token list gives it back, with braces always written or only where needed |
| LogFormatting.FormatAppend | server/log.cpp:322-330 | output for concatenated item lists is concatenated, for every event |
| PatternSeams.ItemsConcatenateExactly | server/log.cpp:338-455 | the items of p + q are those of p and then those of q if and only if the item seam holds, which is wider: it lets pass an unclosed brace followed by text without directive or closing brace, and a format that the last directive drops without a trace |
| PatternSeams.FormattingIsCompositional | server/log.cpp:322-455 | then the output of p + q for every event is that of p and then that of q |
| LogFormatting.SetPatternIsFreshExactly | server/log.cpp:332-336 | since init does not clear the items, a formatter that is given a pattern equals a fresh one exactly when its previous pattern had no percent sign |
| LogFormatting.LogFormatter.ReadDirective | server/log.cpp:362-412 | the inner loop stays in bounds, terminates by the lexicographic measure of remaining length and brace status, and reads the directive of the specification with its exact length |
| LogFormatting.LogFormatter.Collect | server/log.cpp:340-415 | the outer loop collects the tokens of the specification |
| LogFormatting.LogFormatter.Init | server/log.cpp:338-455 | init appends the items of the pattern to those already there |
| LogFormatting.LogFormatter.constructor | server/log.cpp:317-321 | a fresh formatter has the items of its pattern |
| LogFormatting.LogFormatter.SetPattern | server/log.cpp:332-336 | setPattern keeps the old items in front of the new ones |
| LogFormatting.LogFormatter.Format | server/log.cpp:322-330 | format concatenates the texts of the items in order |
| PatternTokens.LettersMakeNames | server/log.cpp:368-397 | every name of letters, upper and lower case, is read as the name of a directive, alone, with any format, and up to any other character |
| PatternTokens.NameEnds | server/log.cpp:368-404 | the text from where a name ends to the next percent sign is literal |
| PatternTokens.TextIsRead | server/log.cpp:343-415 | text in front of a directive is literal, text behind the last one is lost |
| PatternTokens.BraceInName | server/log.cpp:370 | a closing brace that no opening one precedes belongs to the name |
| PatternTokens.TableOfItems | server/log.cpp:417-454 | which name makes which text, with and without a format: eight values of the event, the time in its format or the default one, a line end, a tab, and a report of every other name |
| PatternTokens.UnclosedBraceIsReported | server/log.cpp:406-410 | a brace that is never closed makes the error text |
| ConfigTree.PruningKeepsTheValid | server/config.cpp:5-21 | giving up on a subtree with an invalid prefix loses exactly the entries with invalid names |
| ConfigTree.FlattenIsValidPlaces | server/config.cpp:5-21 | the output is the pre-order list of the nodes whose whole key path is valid, each under the name of its path |
| ConfigTree.PartsOfName | server/config.cpp:16-19 | a name tells exactly the keys of its path split at their dots, without leading empty keys |
| ConfigTree.NamesAgreeExactly | server/config.cpp:16-19 | two paths have the same name if and only if they agree in those parts |
| ConfigTree.NamesIdentifyNodesExactly | server/config.cpp:5-21 | no two entries share a name if and only if the paths of the nodes with valid paths differ in their parts |
| ConfigTree.PlainNamesIdentifyNodes | server/config.cpp:5-21 | in particular if keys are non-empty, without dots, and distinct within each map |
| ConfigTree.EmptyKeyCollides | server/config.cpp:5-21 | a tree with an empty key in which two entries share a name |
| ConfigTree.DottedKeysCollide | server/config.cpp:5-21 | a tree with a dotted key in which two entries share a name |
| ConfigTree.ValidNameExactly | server/config.cpp:8 | a name is valid if and only if it is made of the 64 listed characters |
| ConfigTree.KeysExactly | server/config.cpp:5-21 | a key leads to an entry if and only if it is made of them |
| ConfigTree.MemberList.ListAllYamlMember | server/config.cpp:5-21 | the recursive method appends to its output list what the specification says, at its end |
| ConfigVars.InsertUpdates | server/config.h:239-241 | addListener keeps ascending order of ids and is the update of a map |
| ConfigVars.EraseRemoves | server/config.h:242-244 | removeListener keeps the order and removes one id |
| ConfigVars.ListenersAreAMap | server/config.h:239-247 | after addListener the callback is found under its id, after removeListener none is, and everything else is as before |
| ConfigVars.HistoriesTelescope | server/config.h:209-244 | over any operations the changes lead from the first value to the last without a gap, each a real change, and the calls made are those of each change in turn |
| ConfigVars.NoticesAreInOrder | server/config.h:215-217 | a change calls each registered listener, in ascending order of ids |
| ConfigVars.OneCallPerChange | server/config.h:215-217 | a change calls a registered listener exactly once |
| ConfigVars.ListenerHearsEveryChange | server/config.h:209-244 | a listener that stays registered hears of every change once, in order, with its old and new values |
| ConfigVars.ConfigVar.SetValue | server/config.h:209-218 | setValue does nothing on an equal value and otherwise assigns it and then calls the listeners with new and old value |
| ConfigVars.ConfigVar.FromString | server/config.h:229-238 | fromString sets the converted value, or reports a failed conversion and changes nothing |
| ConfigVars.ConfigVar.AddListener | server/config.h:239-241 | registers or replaces one listener, and nothing else |
| ConfigVars.ConfigVar.RemoveListener | server/config.h:242-244 | removes one listener, and nothing else |
| Configuration.PruningIsSound | server/config.cpp:5-41 | for every tree and every registry of valid names, loading has the same effect as flattening without the check of the prefix |
| Configuration.LoadIsPerVariable | server/config.cpp:23-41 | a load runs on each variable the conversions of the entries under its name, in order, and touches nothing else |
| Configuration.LastParsedWins | server/config.cpp:23-41 | a variable ends with the value last parsed, up to its own equality, and is untouched if none could be |
| Configuration.LoadedExactly | server/config.cpp:23-41 | with distinct names, a variable takes the text of a scalar entry under its name, or the rendering of another node, if that can be converted; otherwise, and without an entry, it stays as it is |
| Configuration.NestedScalarIsLoaded | server/config.cpp:5-41 | a scalar under two keys is loaded into the variable named by both with a dot between |
| Configuration.SilentExactly | server/config.h:209-238 | conversions change nothing and call no listener exactly when the value already equals each of them |
| Configuration.SecondLoadIsSilentExactly | server/config.cpp:23-41 | a second load of the same entries is silent if and only if all the entries of the variable that can be converted agree |
| Configuration.LoadingIsIdempotent | server/config.cpp:23-41 | if its entries have distinct names, loading a tree twice leaves values, listeners and calls as loading it once |
| Configuration.Config.Create | server/config.h:286-306 | returns the registered variable of the same type, refuses another type or an invalid name and changes nothing, or registers a new one; no registered variable is ever replaced |
| Configuration.Config.LoadFromYaml | server/config.cpp:23-41 | the method has the effect of the fold over the flattened tree, on the same variable objects |
| Configuration.Config.LoadMember | server/config.cpp:28-39 | one entry: a scalar gives its text, any other node its rendering |
| LogDefines.LevelRoundTrip | server/log.cpp:15-46 | every level survives being written in lower case and read back |
| LogDefines.DefineRoundTrip | server/log.cpp:637-693 | decoding an encoded definition always succeeds, and gives it back if and only if its appenders other than files have no path |
| LogDefines.SameIsEqualBlurred | server/log.h:314-349 | operator== holds exactly when the definitions are equal after erasing the levels and formatters of their appenders |
| LogDefines.SetKeepsFirst | server/config.h:99-113 | the set is in strict name order and keeps, for every name, the first definition given |
| LogDefines.SortedIsItsSet | server/config.h:99-113 | a list in strict name order is its own set |
| LogDefines.DecodeAllRoundTrip | server/log.cpp:637-693 | a sequence of encoded definitions, each rendered and parsed on the way out and in, decodes to the definitions if the library reads back what it writes |
| LogDefines.DecodeSet | server/config.h:99-113 | the loop parses the text, renders and parses each element by itself, and converts the sequence to its set, or fails as a whole if one definition does |
| LogDecoding.LevelTexts | server/log.cpp:39-46 | five words are levels, in any mixture of cases, and every other text is the unknown level |
| LogDecoding.LevelNodes | server/log.cpp:674 | levels are written in lower case |
| LogDecoding.AppenderDecodesExactly | server/log.cpp:647-662 | which appender nodes can be decoded, those with a type and, for files, a path, and to what, missing levels and formatters included |
| LogDecoding.DecodesExactly | server/log.cpp:637-665 | which nodes can be decoded to definitions, those with name, level, formatter and decodable appenders, and to what |
| LogDecoding.ConvertsExactly | server/config.h:99-113 | a sequence converts if and only if each element does by itself; a scalar or nothing converts to the empty set |
| LogDecoding.SetExactly | server/config.h:99-113 | the set has ascending names and holds, of each name, the definition that comes first, and no other |
| LogDecoding.LessExactly | server/log.h:350-352 | names are ordered by prefix and by the first character that differs |
| LogDecoding.DifferencesAreSeen | server/log.h:320-346 | operator== sees every difference but those in the levels and formatters of appenders |
| LoggerSpec.SatisfiedExactly | server/log.cpp:507-535 | a request for an appender changes nothing if and only if there is one of the kind and, for files, all have the path |
| LoggerSpec.NoChangeIsUndone | server/log.cpp:507-535 | requests never undo each other, so a change that is reported is there at the end |
| LoggerSpec.UpdateIsIdempotent | server/log.cpp:487-538 | updateLogger with the same arguments again leaves the logger as it is |
| LoggerSpec.UpdateInIsIdempotent | server/log.cpp:487-538 | and the manager |
| LoggerSpec.LoggingKeepsEmissions | server/log.cpp:282-309 | logging an event, which may open files, does not change what later events are emitted to |
| LoggerMeaning.EmissionsExactly | server/log.cpp:234-316 | an event is emitted, in order, by the appenders that let it through of a logger that lets it through, where the events that each level lets through are listed; to where the stream was opened, or else to the path |
| LoggerMeaning.OneAppenderEmits | server/log.cpp:234-316 | the same for one appender |
| LoggerMeaning.LoggingOpensExactly | server/log.cpp:282-309 | an event opens exactly the files that it is the first to reach, on their paths |
| LoggerMeaning.UpdateExactly | server/log.cpp:487-538 | for all arguments: the logger gets the level and the pattern; every old appender keeps place, kind, level and stream, gets the pattern and loses its mark if the pattern is another, and gets the path if it is a file and a file is asked for; then come the appenders that are added |
| LoggerMeaning.AddedAtMostOnce | server/log.cpp:507-535 | one appender at most of each kind is added, of a kind that is asked for and not there, at DEBUG with the logger's pattern |
| LoggerMeaning.OneLoggerAlone | server/log.cpp:487-561 | updating, creating and logging concern the named logger alone |
| LoggerMeaning.CreateExactly | server/log.cpp:540-561 | a new logger has one appender for each known kind asked for, in that order, with the logger's level and pattern, and no others |
| LoggerMeaning.NewLoggerEmits | server/log.cpp:540-561 | so it emits every event that passes its level once to each of them, in that order |
| LoggerMeaning.GottenExactly | server/log.cpp:474-485 | getLogger makes a logger at DEBUG with the default pattern, which emits nothing |
| LoggerMeaning.RootExactly | server/log.cpp:457-461 | a fresh manager writes every event but those of unknown level to standard output, with the default pattern |
| LoggerMeaning.DenoteExactly | server/log.cpp:563-614 | a definition denotes one appender for each definition of a known kind, in order, with its own level and formatter or the logger's |
| LoggerMeaning.DumpKeeps | server/log.cpp:697-721 | dumping and configuring again keeps name, level, pattern, and of each appender kind, path, known level, own pattern and mark |
| LoggerSpec.DumpPreservesMeaningExactly | server/log.cpp:564-614 | turning a logger into its definition and configuring it again gives the same emissions at every level if and only if each appender's pattern is marked as its own or is the logger's, and no file is open on a path other than its own |
| LoggerReload.ReloadReachesTheDefinitions | server/log.cpp:734-753 | from any prior state the listener reaches exactly the named loggers, each as its definition denotes |
| LoggerReload.RunAllKeepsSound | server/log.cpp:457-634 | in every state reached through manager operations names match keys and the patterns are marked as above |
| LoggerReload.DumpAndReloadPreservesMeaningExactly | server/log.cpp:697-753 | for every sequence of manager operations, the logging of events among them: reloading the dump keeps the loggers and their emissions at every level, though inherited levels become explicit and unknown ones inherited, if and only if no file is open on a path other than its own |
| LoggerReload.OpenFileStaysOpen | server/log.cpp:282-309 | the operations that show it: a logger that has written to one file and is given another goes on writing to the first, and after a reload writes to the second |
| LoggerReload.DumpDecodes | server/log.cpp:697-729 | the dump decodes to itself as a set |
| LoggersVariable.SameSetIsEquivalence | server/log.h:320-349 | the equality of the loggers variable is an equivalence, so loading it is idempotent although it is not equality of values |
| LoggersVariable.ManagerFollowsVariable | server/log.cpp:731-755 | after any operations on the variable that leave its listener in place, the manager is what the final value denotes, whatever it was before, or is untouched if nothing changed |
| LoggersVariable.SetTakesEffectExactly | server/config.h:209-218 | setValue, through the calls it makes, brings the manager from what the old value denotes to what the new one denotes if and only if operator== sees a difference or none of the appenders is changed in effect |
| LoggersVariable.AppenderLevelChangeIsMissed | server/log.h:320-322 | two definitions that count as equal though one lets an INFO event out and the other does not |
| LoggersVariable.LoadingTheDumpPreservesMeaningExactly | server/log.cpp:697-755 | loading the manager's own dump through the configuration keeps what every event is emitted to if and only if the dump counts as no change of the variable or no file is open on a path other than its own |
| LoggerHeap.LogAppender.Log | server/log.cpp:282-316 | an event that the level lets through opens the file if it is not open, and goes to where the stream was opened |
| LoggerHeap.Logger.Log | server/log.cpp:234-244 | log reaches the appenders in order, those whose level lets the event through, and opens their files |
| LoggerHeap.Logger.AddAppender | server/log.cpp:214-220 | an appender without a formatter gets the logger's; it comes last |
| LoggerHeap.Logger.ToDefine | server/log.cpp:703-719 | the loop makes the definition of the logger |
| LoggerHeap.Logger.SetPaths | server/log.cpp:519-529 | all file appenders get the path; the result says exactly whether one had another, and whether there are any |
| LoggerHeap.Logger.RequestAppender | server/log.cpp:508-534 | one requested appender, with an exact report of change |
| LoggerHeap.Logger.Update | server/log.cpp:491-537 | the whole update of one logger; it returns true if and only if the logger is different |
| LoggerHeap.Logger.AddDefined | server/log.cpp:570-597 | one appender of a definition: own level and formatter or the logger's; an unknown kind adds none |
| LoggerHeap.Logger.UpdateAppender | server/log.cpp:564-598 | rebuilds the appenders from fresh objects, as the definition denotes |
| LoggerHeap.Logger.SetFrom | server/log.cpp:600-614 | the configured logger is what its definition denotes |
| LoggerHeap.Logger.WithAppenders | server/log.cpp:196-208 | the constructor that takes kinds of appenders skips unknown ones |
| LoggerHeap.Logger.InheritAll | server/log.cpp:553-557 | all appenders inherit the logger's level and formatter |
| LoggerManagement.LoggerManager.constructor | server/log.cpp:457-461 | a manager starts with the root logger and its stdout appender |
| LoggerManagement.LoggerManager.AppendersAreDisjoint | server/log.cpp:487-614 | loggers never share an appender, so changing one logger leaves the others alone |
| LoggerManagement.LoggerManager.GetLogger | server/log.cpp:474-485 | finds or registers a logger; the others keep their identity and state |
| LoggerManagement.LoggerManager.UpdateLogger | server/log.cpp:487-538 | on the heap: the named logger is updated as specified, all others are unchanged, and the result is true if and only if the state of the manager is different |
| LoggerManagement.LoggerManager.CreateLogger | server/log.cpp:540-561 | updates the logger of that name, or registers a new one whose appenders inherit from it |
| LoggerManagement.LoggerManager.ConfigureLogger | server/log.cpp:600-614 | the logger of that name, the same object if there was one, is what the definition denotes; the others are unchanged |
| LoggerManagement.LoggerManager.RemoveLogger | server/log.cpp:616-634 | removes one name and nothing else |
| LoggerManagement.LoggerManager.Log | server/log.cpp:234-244 | an event of one logger is emitted as specified and changes no other logger |
| LoggerManagement.LoggerManager.OnLoggersChanged | server/log.cpp:734-753 | the listener has the effect of the reload on the heap, and loggers that stay keep their identity |
| LoggerManagement.LoggerManager.ToDefines | server/log.cpp:697-721 | the definitions of all loggers, in name order |
| LoggerManagement.LoggerManager.ToYaml | server/log.cpp:697-729 | the node that is rendered is the dump of the manager |

The modules `Wrappers`, `Strings`, `Sums` and `Yaml` hold the option type, searching and ordering
of strings, sums for the termination measures, and the tree of a document.

## Left out

- SchedulerProgress.StopCompletes: promises an empty list only if no caller other than a fiber body pushes after `m_stopping` is set, since such work can be stranded; `SchedulerSafety.StopDrains` says exactly what is left without that condition.
- FiberSystem.FibersRunFaithfully: is about sound runs, which `FiberSystem.RunIsSoundExactly` characterises; what a fiber does inside a segment is not modelled beyond its calls of `schedule`, and an exception is one that leaves the last segment.
- PatternSeams.FormattingIsCompositional: speaks of freshly parsed patterns, because `setPattern` accumulates items.
- LogDefines.DefineRoundTrip: is about YAML nodes; the text of a document is not modelled.
- LoggersVariable.LoadingTheDumpPreservesMeaningExactly: assumes of the YAML library that it reads back the nodes it has written, each definition and the sequence of them.
- LoggerManagement.LoggerManager.ToDefines: visits the names in any order and puts each definition in its place, where the source iterates over a map ordered by name.
- SchedulerQueue.Scheduler.Run: is the run of one worker that is not disturbed; the interleaving of workers is in the step relation, on values, since Dafny's methods are sequential.
- Null fiber pointers: `schedule` accepts one, and a worker that takes it behaves as if it had found the list empty, so a stopping worker leaves with work still listed (server/scheduler.cpp:116-123). The fibers of the model exist.
- `user_caller` mode, in which the root fiber is its own scheduler fiber and `stop` calls it, with `call` and `back`; restarting a scheduler; threads that are created while others already run are threads that have not taken their first step.
- `idle` and `tickle`, which no dispatch reaches; `Fiber::reset`; `s_fiber_count` and fiber ids.
- `ucontext` calls, stacks and reference counts: a context is the point at which a fiber resumes.
- `Thread`, `Semaphore`, `ScopedLockImpl`, `NullMutex`, `Singleton`: a join is a step that is enabled when the worker has exited.
- Parsing and rendering of YAML text and `boost::lexical_cast`: functions that are parameters. A null where a string is expected counts as a failed conversion, and so does a non-empty mapping where a sequence of definitions or appenders is expected.
- The container casts other than the one to `std::set<LogDefine>`: they repeat its loop without the ordering.
- The contents of files, standard output and `strftime`: the text of a field is a function of the event, an emission a triple of sink, path and pattern. Opening a file is taken to succeed. The messages that the configuration and the manager log about themselves are not emissions of the model.
- `isalpha` is taken for ASCII letters.
- Listeners that throw, write configuration or add and remove listeners while they are called.
- Variables of different types in one registry: the registry is generic in one type of values, and a tag stands for the C++ type.
- Changes to loggers and appenders other than through the manager: `delAppender`, setters called by users, appenders that are shared between loggers, and `setPattern` on a formatter that several appenders share. A formatter is represented by its pattern.
- `m_root` after a reload that does not name `root`: the map loses the logger, the field keeps it, and no agreement of the two is claimed.
