# picologging, modelled in Dafny

picologging is a drop-in replacement for Python's `logging`. Most of its speed comes from answering a
question from something cached, compiled or moved ahead of time instead of from the simple definition.
This project models five such parts of it, and proves when the fast answer is the simple one.

- **Loggers.** `Manager.getLogger` grows a dotted-name tree lazily, promotes placeholders to loggers and
  re-parents loggers on the way. Each logger caches an effective level and five flags, which `setLevel`
  pushes down through `children` lists. `Names`, `Folds`, `LoggerGraph`, `LoggerRegistry`, `LoggerTree`,
  `LoggerCoherence`, `LoggerRuns`, `LoggerLostTree` and `LoggerDispatch` work on values; `LoggerObjects`
  and `LoggerManager` are the mutable objects, each method proved to do to the objects what the functions
  do to the values. `Selection` says what a loop with a test picks.
- **Files.** `Decimals`, `FileSystem`, `SizeRotation`, `SizeRotationRuns`, `SizeRotationFill` (rename chain by
  size) and `RolloverClock`, `TimedRotation` (calendar arithmetic, catch-up loop, dated backups, in UTC).
- **Queues and buffers.** `QueueListener` is a step system over all interleavings of producers, monitor
  thread and `stop`; `MemoryChain` has chains of memory handlers of any length.
- **Formats.** `FormatScan` is the two-pass scan for any field syntax; `FormatCompiler` the two styles;
  `Formatting`, `FormattingResults` and `FormattingRuns` the formatter and several formatters on one record.
- **dictConfig.** `ExistingLoggers` and `DictConfigLoggers` (which old loggers are reset, disabled or
  configured), `DictConfigHandlers` and `DictConfigTargets` (the two rounds of handler configuration).

`dafny verify dfyconfig.toml` checks everything.

## What the proofs found

Properties that do not hold as one would expect are stated with the exact condition under which they do.

- The tree survives `getLogger` exactly when no placeholder named by a prefix of "root" is promoted
  (`LoggerTree.GetLoggerTree`): `_fixupChildren` compares raw string prefixes.
- `getLogger` leaves every cache right exactly when each logger it moves, if unset, leaves a parent of the
  same resolved level (`LoggerCoherence.GetLoggerCoherent`, over runs `LoggerRuns.CarefulRunCoherent`). In a
  tree that is always so; once a placeholder "r" has been promoted it can fail, and then a logger changes
  its level and not its cache (`LoggerLostTree.PromotionMovesToAnotherLevel`).
- A moved logger stays on the `children` list of its former parent (`LoggerRuns.MoveLeavesStaleChild`), so
  two later `setLevel` calls can leave a wrong cache (`LoggerRuns.PushPastMoved`).
  `LoggerGraph.SetLevelCoherence` gives the exact guard of one call; it covers `setLevel(NOTSET)`, which
  stores 0 instead of the inherited level.
- The upward scan sees every dotted prefix exactly when the name has no two adjacent dots after its first
  character (`Names.ScanIsComplete`).
- The documentation string of `MemoryHandler.close` says the buffer is lost; the code keeps it
  (`MemoryChain.CloseDelivers`, `MemoryChain.UnsetTargetOnlyBuffers`). Buffers stay below their capacities
  over all runs exactly when the chain ends in a sink (`MemoryChain.SmallExactlyIfAttached`).
- The size limit of a rotating file holds over all runs exactly when `backupCount` is at least 1
  (`SizeRotationRuns.LimitNeedsBackups`): without backups a rollover renames nothing. The test adds a length
  in characters to a size in bytes, so in bytes a file can exceed it; `SizeRotationRuns.ByteLimitExactly`
  says after which lines.
- A `stop` on a listener that is not running raises, but leaves its sentinel behind, and a later `stop`
  can return with records unhandled (`QueueListener.StrayStopStrandsRecords`). It does so exactly when a
  record lies behind the first sentinel in the queue as it is called (`QueueListener.StopDrains`).
- The field table spells `funcname` where the record's attribute is `funcName`; that is the one field name
  for which compiled rendering and attribute lookup differ (`FormatCompiler.CompiledMeansFormat`).
- In the percent style, whether a format uses the date is decided by looking for a text that need not be a
  field; `FormatCompiler.PercentAsctimeExactly` says when that decision is right.
- Whether another formatter has handled a record before shows exactly in formats with an `exc_text` field
  (`FormattingRuns.AloneExactly`).
- `dictConfig` spares what is below a configured name only if that name existed before
  (`ExistingLoggers.ScanClassifies`), which makes a difference exactly for names that are not prefix closed
  (`ExistingLoggers.MarksBelowExactly`).
- A placeholder below a configured logger makes `dictConfig` fail, as placeholders have no `setLevel`
  (`DictConfigLoggers.DictConfigurator.Configure`).

## Model

| member | source | states |
|---|---|---|
| Names.ScanIsComplete | src/picologging/__init__.py:144-158 | the upward `rfind` scan visits every dotted prefix of a name exactly when the name has no two adjacent dots (a leading pair aside) |
| Names.LessExactly | src/picologging/config.py:123-128 | the order of the sorted names: the first difference decides by code point, and a proper prefix comes first |
| LoggerGraph.FlagsAreThresholds | src/picologging/logger.cxx:25-43 | the fall-through switch computes "effective level at most the standard level" for all five flags exactly for the five standard levels and levels above CRITICAL |
| LoggerGraph.ReachIsLeastClosed | src/picologging/logger.cxx:45-54 | the loggers the recursive push overwrites are the least set containing the unset children of the start and closed under unset children; the start is not among them |
| LoggerGraph.PushMissesNothing | src/picologging/logger.cxx:45-54 | every logger that resolves through unset parents to the start of a push is reached by it, when each child is on its parent's list |
| LoggerGraph.WalkAfterSetLevel | src/picologging/logger.cxx:9-23 | after `setLevel(v)` the reference walk gives v exactly to the loggers that resolve to the changed one (for v above 0), and its old answer to the others |
| LoggerGraph.SetLevelCoherence | src/picologging/logger.cxx:141-160 | from right caches, `setLevel` leaves right caches if and only if every overwritten logger resolves through unset parents to the changed one (or to a logger already at that level), with the extra condition for level 0 spelled out |
| LoggerGraph.ExactPassesGuard | src/picologging/logger.cxx:45-54 | where children lists hold only real children, every level above 0 satisfies that condition |
| LoggerGraph.SetParentCoherentAt | src/picologging/logger.cxx:529-551 | assigning a parent makes the assigned logger's cache the level of its new walk |
| LoggerGraph.SetParentGraph | src/picologging/logger.cxx:540-545 | assigning a parent that is above by name keeps the parent and children links acyclic |
| LoggerGraph.SetParentListed | src/picologging/logger.cxx:540-545 | assigning a parent keeps every logger on its parent's children list |
| LoggerGraph.WalkInterposed | src/picologging/logger.cxx:9-23 | moving loggers under an unset one changes no resolved level if and only if the former parent of each moved logger that is unset resolves to the level that the new one's parent resolves to |
| LoggerGraph.PathInterposed | src/picologging/logger.cxx:328-379 | moving loggers under a propagating one without handlers changes no dispatch path if and only if the former parent of each moved logger that propagates has the path of the new one's parent |
| LoggerGraph.DispatchShowsPath | src/picologging/logger.cxx:331-359 | where records of all levels go is the same if and only if the dispatch path is |
| LoggerGraph.AdmittedAppend | src/picologging/logger.cxx:331-359 | the handlers that get a record are decided handler by handler along the path |
| LoggerDispatch.WalkIsFirstSet | src/picologging/logger.cxx:9-23 | along any chain of parents the resolved level is that of the first logger whose level is set, 0 if there is none |
| LoggerDispatch.DispatchExactly | src/picologging/logger.cxx:331-379 | along the chain of parents up to the first logger that does not propagate: the fallback handler alone exactly if no logger there has a handler, and otherwise, in that order, exactly the handlers whose own level is at most the record's |
| LoggerDispatch.DispatchCounts | src/picologging/logger.cxx:331-359 | every handler is given the record as often as it is attached on that chain if its level admits the record, and never otherwise |
| LoggerDispatch.FlagsExactly | src/picologging/logger.cxx:25-43 | each of the five flags is on for exactly the standard levels up to its own, and no other level switches anything on |
| LoggerRegistry.ScanUpEffect | src/picologging/__init__.py:139-161 | for a plain name the scan of `_fixupParents` returns the nearest registered logger above and adds the new logger to exactly the placeholders below that one |
| LoggerRegistry.AdoptAllInv | src/picologging/__init__.py:163-174 | `_fixupChildren` over any members keeps links acyclic and listed and changes no logger's settings |
| LoggerRegistry.TurnSpelledOut | src/picologging/__init__.py:170-174 | each turn of `_fixupChildren` is the two parent assignments, both to a logger above by name, or nothing |
| LoggerRegistry.ScannedParentAbove | src/picologging/__init__.py:146-161 | the parent found for a new logger is an existing logger whose name is a dotted prefix, or the root |
| LoggerTree.KnownAfter | src/picologging/__init__.py:117-161 | a call adds exactly one logger name; every registered logger stays registered, and only dotted prefixes of the name become new entries |
| LoggerTree.GetLoggerSound | src/picologging/__init__.py:117-174 | whatever the name, afterwards the name is registered for the returned logger, every logger is registered under its own name, and all links are acyclic and listed |
| LoggerTree.ClosedAfter | src/picologging/__init__.py:139-158 | every proper dotted prefix of a registered name is registered |
| LoggerTree.CompleteAfter | src/picologging/__init__.py:147-158 | every placeholder holds every logger below it whose nearest registered ancestor lies above it |
| LoggerTree.ParentsAfter | src/picologging/__init__.py:123-137 | which parent every logger has after a creation or promotion: the new logger, if it now is the nearest above, else the one it had |
| LoggerTree.GetLoggerTree | src/picologging/__init__.py:117-174 | prefix closure, complete placeholders and nearest-ancestor parents all survive a call if and only if it does not promote a placeholder that is a prefix of "root" |
| LoggerTree.ConfusionShows | src/picologging/__init__.py:172 | promoting such a placeholder leaves a member under the root that should be under the promoted logger |
| LoggerCoherence.LinksAfter | src/picologging/__init__.py:123-174 | from any sound registry and for any name: the new logger has the parent the scan finds, the members that pass the prefix test have the new logger as parent, all others the parent they had |
| LoggerCoherence.CachesAfter | src/picologging/logger.cxx:529-551 | whatever the name, the call changes no cached level or flag of another logger, and the new one's is right |
| LoggerCoherence.GetLoggerInvisible | src/picologging/__init__.py:117-174 | from any sound registry with right caches, the call changes no other logger's settings, cached level, flags, resolved level or dispatch at any level if and only if each moved logger leaves a parent that resolves (if it is unset) and dispatches (if it propagates) like the parent found for the new one |
| LoggerCoherence.GetLoggerCoherent | src/picologging/__init__.py:117-174 | from any such registry all cached levels equal the walk afterwards if and only if each moved unset logger leaves a parent that resolves like the parent found for the new one |
| LoggerCoherence.TreeHidesGetLogger | src/picologging/__init__.py:117-174 | in a tree both conditions hold for every name |
| LoggerCoherence.PromotionMoves | src/picologging/__init__.py:170-174 | in a tree a promotion moves some logger if and only if the promoted name is no prefix of "root" |
| LoggerRuns.InitialIsTree | src/picologging/__init__.py:185-186 | the registry of a fresh root has a right tree, exact children lists and right caches |
| LoggerRuns.CarefulRunCoherent | src/picologging/__init__.py:117-174 | over any run of `getLogger` and `setLevel` calls, whatever the names, every cache is right throughout if and only if each call meets its condition in the state it is made in |
| LoggerRuns.CarefulIsExact | src/picologging/logger.cxx:141-160 | one call from any sound state with right caches leaves right caches if and only if it meets its condition |
| LoggerRuns.TidyIsExact | src/picologging/__init__.py:117-174 | a call with a plain name from a state with right tree and caches leaves such a state if and only if it promotes no prefix of "root" and passes the guard of `setLevel` |
| LoggerRuns.TidyRunCoherent | src/picologging/__init__.py:117-174 | over any run of such calls, promotions included, tree and caches stay right |
| LoggerRuns.ExactUntilMove | src/picologging/logger.cxx:540-545 | from any sound registry, children lists stay exact under `getLogger` if and only if the call moves no logger |
| LoggerRuns.QuietRunCoherent | src/picologging/logger.cxx:9-54 | over any run without promotions and with levels above 0, whatever the names, every cached level equals the ancestor walk |
| LoggerRuns.GatesDecideAsWalk | src/picologging/logger.cxx:384-445 | with right caches the gates of `debug()` to `critical()` decide as the walk would, if and only if the walk ends at a standard level or above CRITICAL |
| LoggerRuns.GatesRightOverRuns | src/picologging/logger.cxx:384-445 | over any run that keeps the caches right, and so over any run without promotions and NOTSET, whose levels are standard or above CRITICAL, every gate of every logger decides as the walk |
| LoggerRuns.MoveLeavesStaleChild | src/picologging/logger.cxx:540-545 | every logger that a promotion moves stays on the list of its former parent |
| LoggerRuns.PushPastMoved | src/picologging/logger.cxx:45-54 | for any moved logger that is unset, setting the promoted logger and then the former parent to different levels leaves a wrong cache |
| LoggerLostTree.PromotionMovesToAnotherLevel | src/picologging/__init__.py:139-174 | the condition can fail: a run from the initial registry with right caches up to a `getLogger` that changes the level of a logger and not its cache |
| LoggerObjects.Logger.constructor | src/picologging/logger.cxx:56-114 | a new logger has no parent, no children, no handlers, propagates, and caches its own level |
| LoggerObjects.Logger.FindEffectiveLevelFromParents | src/picologging/logger.cxx:9-23 | the loop over parent links returns the first set level on the way up, 0 if there is none |
| LoggerObjects.Logger.SetEnabledBasedOnEffectiveLevel | src/picologging/logger.cxx:25-43 | the fall-through switch sets the flags from the cached level and changes nothing else |
| LoggerObjects.Logger.SetEffectiveLevelOfChildren | src/picologging/logger.cxx:45-54 | the recursion over the heap terminates and overwrites the caches of exactly the reached loggers |
| LoggerObjects.Logger.SetLevel | src/picologging/logger.cxx:141-160 | integers are masked to 16 bits, names are looked up, other arguments raise and change nothing; accepted levels have the effect of the value-level `SetLevel` |
| LoggerObjects.ArgLevelExactly | src/picologging/logger.cxx:141-160 | accepted are integers, of which the lowest 16 bits count, and six names with the values 0 to 50; other names and other arguments raise |
| LoggerObjects.Logger.SetParent | src/picologging/logger.cxx:529-551 | links both ways without unlinking the old parent, and rescans |
| LoggerObjects.Logger.IsEnabledFor | src/picologging/logger.cxx:553-562 | enabled exactly if not disabled and the masked level reaches the cached one |
| LoggerObjects.Logger.LogStandard | src/picologging/logger.cxx:384-445 | dropped at the gate, dropped by the filters, or dispatched |
| LoggerObjects.Logger.Log | src/picologging/logger.cxx:475-500 | gated by the cached level itself, at the masked level |
| LoggerObjects.Logger.LogAndHandle | src/picologging/logger.cxx:323-379 | the loop hands the record to the level-admitted handlers of self and ancestors, nearest first, up to the first non-propagating logger, and to the fallback exactly if no handler is attached on that path |
| LoggerManager.Placeholder.Append | src/picologging/__init__.py:82-87 | a logger is kept once, in order of arrival |
| LoggerManager.Manager.constructor | src/picologging/__init__.py:96-103 | the manager of a fresh root is sound and its dictionary empty |
| LoggerManager.Manager.GetLogger | src/picologging/__init__.py:117-137 | returns the registered logger and changes nothing, or enters a fresh one with the effect of the value-level `GetLogger`, keeping the heap sound |
| LoggerManager.Manager.NamedLogger | src/picologging/__init__.py:310-318 | no name, the empty name and "root" give the root logger and change nothing; only these do; any other name goes to the manager |
| LoggerManager.Manager.FixupParents | src/picologging/__init__.py:139-161 | creates or extends placeholders up to the nearest logger, and assigns that parent |
| LoggerManager.Manager.ScanParents | src/picologging/__init__.py:144-158 | the scan loop alone: the dictionary and the logger found |
| LoggerManager.Manager.FixupChildren | src/picologging/__init__.py:163-174 | the loop over a placeholder's members performs the adoptions in order |
| FileSystem.NumberedInjective | src/picologging/handlers.py:207-214 | different backup numbers give different file names |
| Decimals.DecimalIs | src/picologging/handlers.py:207-214 | a backup number is written in decimal digits with its value and no leading zero |
| FileSystem.Directory.Rename | src/picologging/handlers.py:154-155 | a rename moves one file and overwrites the destination |
| SizeRotation.RolloverShifts | src/picologging/handlers.py:206-219 | on any directory, gaps included, a rollover is an exact shift: new .1 is the old base, new .k the old .(k-1), new .n the old .(n-1) if it existed and else the old .n, and no other file changes |
| SizeRotation.RotatingFileHandler.constructor | src/picologging/handlers.py:166-197 | a size limit forces append mode; the file is opened unless delayed |
| SizeRotation.RotatingFileHandler.RenameChain | src/picologging/handlers.py:206-217 | the rename loop computes that shift |
| SizeRotation.RotatingFileHandler.DoRollover | src/picologging/handlers.py:199-219 | closes, shifts if there are backups, reopens unless delayed |
| SizeRotation.RotatingFileHandler.ShouldRollover | src/picologging/handlers.py:221-237 | never for special files; otherwise opens the stream and compares size in bytes plus length in characters with the limit |
| SizeRotation.RotatingFileHandler.Emit | src/picologging/handlers.py:109-118 | check, rollover if due, write |
| SizeRotationRuns.RolloverDropsAtMostLast | src/picologging/handlers.py:206-219 | a rollover of any directory keeps the archive (oldest backup first, then the current file) but for a prefix inside base.n |
| SizeRotationRuns.RunKeepsSuffix | src/picologging/handlers.py:109-120 | after any run from an empty directory the archive is a line-aligned suffix of everything emitted, in at most n+1 files, all of them the handler's |
| SizeRotationRuns.RunKeepsSize | src/picologging/handlers.py:221-237 | in a file of more than one line, the bytes before the last line plus the length of that line stay below the limit; in a single-byte encoding every file is below the limit or holds exactly one line |
| SizeRotationRuns.ByteLimitExactly | src/picologging/handlers.py:221-237 | files ending with a given line are below the limit in bytes, or that line alone, over all runs if and only if the line has no more bytes than characters or is too long to share a file |
| SizeRotationRuns.FillerExceeds | src/picologging/handlers.py:221-237 | for every other line, the run after which the file exceeds the limit in bytes |
| SizeRotationRuns.RunBoundsDisk | src/picologging/handlers.py:166-185 | in any encoding, total size is at most n+1 times the larger of the longest line and maxBytes-1 plus what a line can have in bytes beyond its characters |
| SizeRotationRuns.LimitNeedsBackups | src/picologging/handlers.py:206-237 | in append mode with a limit, every file of every run keeps the limit if and only if `backupCount` is at least 1 |
| SizeRotationRuns.NoBackupsKeepEverything | src/picologging/handlers.py:206-219 | with no backups in append mode, over any run on any directory, the file grows by everything emitted and no other file changes |
| SizeRotationRuns.OversizedExceeds | src/picologging/handlers.py:221-237 | the two lines after which, without backups, the file exceeds the limit, for every limit |
| SizeRotationFill.EmitExactly | src/picologging/handlers.py:109-120 | on any directory, a line shifts the files and starts a new one exactly if there are backups and the bytes in the file plus its characters reach the limit; else it is appended and no other file changes |
| SizeRotationFill.RunFillsFiles | src/picologging/handlers.py:221-237 | over any run no file is closed early: each backup, with the first line of the next newer file, reaches the limit |
| SizeRotationFill.NoLimitKeepsEverything | src/picologging/handlers.py:232-237 | without a limit nothing is ever rotated, over any run on any directory |
| RolloverClock.ParseWhen | src/picologging/handlers.py:262-309 | an argument is accepted exactly if it spells S, M, H, D, MIDNIGHT or W0 to W6 in either case, and then as that schedule |
| RolloverClock.ComputeRolloverIsLeast | src/picologging/handlers.py:322-395 | for MIDNIGHT and W the result is the least qualifying instant: the first midnight strictly after now (ending the given weekday), or the first instant at or after now with that time of day (on that weekday) |
| RolloverClock.QualifiesExactly | src/picologging/handlers.py:337-378 | the qualifying instants in seconds of the day and weeks since the epoch: the time of day that is asked for on the weekday that is asked for, or the midnight that ends it |
| RolloverClock.WaitIsForward | src/picologging/handlers.py:322-359 | the result is never in the past, and is now itself only for a calendar clock with `atTime` |
| TimedRotation.NextRolloverAhead | src/picologging/handlers.py:493-507 | after the catch-up loop the next rollover is strictly ahead and still aligned, and nothing qualifying is passed over unless now itself qualifies; then, and for the other clocks, it is exactly one interval ahead |
| TimedRotation.FirstIsAligned | src/picologging/handlers.py:316-320 | the constructor's first rollover is aligned |
| TimedRotation.FirstRolloverIs | src/picologging/handlers.py:316-359 | the first rollover comes after one interval, or for a calendar clock at the least qualifying instant, with the fraction of the file's time |
| TimedRotation.RolloverAdvances | src/picologging/handlers.py:456-507 | with a monotone clock each rollover moves `rollover_at` strictly ahead, and the next backup names a strictly later period, for every `when` and multiplier |
| TimedRotation.TimedRotatingFileHandler.constructor | src/picologging/handlers.py:248-320 | the stream opened unless delayed; the first rollover from the modification time of the file if it is there then, the one just opened included, else from the clock |
| TimedRotation.TimedRotatingFileHandler.DoRollover | src/picologging/handlers.py:456-507 | rename to the dated name of the elapsed period, prune, reopen unless delayed, advance |
| TimedRotation.RenamedExactly | src/picologging/handlers.py:485-488 | the dated name takes over the current file, or is gone if there is none, and no other file changes |
| TimedRotation.TimedRotatingFileHandler.CatchUp | src/picologging/handlers.py:493-495 | the loop ends, with `computeRollover`'s instant or, if that is not ahead of now, the one an interval later |
| TimedRotation.TimedRotatingFileHandler.Emit | src/picologging/handlers.py:109-118 | rollover if the clock has reached `rollover_at` and the file is not special, then write |
| TimedRotation.NamesNeverRepeat | src/picologging/handlers.py:456-507 | over any run, on any directory, pruning or not, the rollovers name strictly increasing periods and no two compute the same destination |
| TimedRotation.BackupsNameTheirPeriods | src/picologging/handlers.py:470-484 | over any run, every backup names the period of its suffix that begins one interval before its rollover was due |
| TimedRotation.MidnightEndsTheNamedDay | src/picologging/handlers.py:470-484 | a daily clock names the day that ends at its rollover, a weekly one the first day of the week that ends then |
| TimedRotation.UnitsAre | src/picologging/handlers.py:276-309 | the intervals and the granularity of the suffixes, in seconds |
| TimedRotation.RunRollsWhenDue | src/picologging/handlers.py:396-411 | over any run on a regular or missing file, an emit rolls over exactly if the clock has reached `rollover_at`, and no line is written at or after the instant its file is due |
| TimedRotation.BackupsHoldTheirLines | src/picologging/handlers.py:456-495 | over any such run, what was in the file and everything emitted falls into consecutive stretches, one per rollover and the current file; a backup still on disk holds exactly its stretch |
| TimedRotation.RunLosesNothing | src/picologging/handlers.py:456-495 | without pruning, on any directory, the backups in the order of their periods and then the current file hold what was in the file and everything emitted |
| TimedRotation.CreatedIsInScope | src/picologging/handlers.py:311-320 | every handler the constructor makes, over a regular or missing file, is in the scope of the run theorems |
| QueueListener.StepInv | src/picologging/handlers.py:652-695 | every step of producers, monitor and caller, a `stop` on a listener that is not running included, keeps the invariant of history, queue, deliveries and unfinished tasks |
| QueueListener.NothingLostOrDuplicated | src/picologging/handlers.py:636-673 | in every interleaving, what a handler was offered plus the record in flight plus the queue is the enqueue history in order; levels only filter; unfinished tasks are the queue plus the one in flight |
| QueueListener.ReceivedExactly | src/picologging/handlers.py:636-650 | in every run a handler has, of the records handed to it, all if levels are not respected, and else exactly those at its level and above, in order |
| QueueListener.StopDrains | src/picologging/handlers.py:685-695 | over all runs, stray `stop` calls and restarts included: when a `stop` returns, everything queued before its sentinel was taken if and only if, when it was called, no record lay behind the first sentinel in the queue (no record in the queue at all, if the monitor had already met a sentinel); what did lie there is exactly what is left behind; all that was taken has been delivered once and in order, and the rest is all that is unfinished |
| QueueListener.OrderlyStopDrains | src/picologging/handlers.py:685-695 | if every earlier `stop` met a running listener, that is everything queued before the sentinel, and what is left is exactly what came after it |
| QueueListener.StopProgresses | src/picologging/handlers.py:675-695 | while `stop` joins, the monitor can always step, each step brings the return nearer and no producer delays it |
| QueueListener.StrayStopStrandsRecords | src/picologging/handlers.py:685-695 | the condition can fail: a run in which a stray `stop` leaves a later record stranded |
| MemoryChain.HandleConserves | src/picologging/handlers.py:812-819 | a record through a chain of any length, ending in a sink or without a target: sink output and buffers, deepest first, grow by exactly that record at the end |
| MemoryChain.FlushesExactly | src/picologging/handlers.py:812-819 | with a target, a record empties the buffer if and only if it fills it or is at or above the flush level, and then the target has the old buffer and the record; else it waits and the target is untouched |
| MemoryChain.SevereNeverWaits | src/picologging/handlers.py:812-819 | over any run through a chain that ends in a sink, no record at or above a handler's flush level is ever left in that handler's buffer |
| MemoryChain.SevereDeliversAll | src/picologging/handlers.py:812-819 | a record at or above all flush levels of the chain takes everything that waits in it to the sink |
| MemoryChain.HandleKeepsSmall | src/picologging/handlers.py:812-819 | every buffer is below its capacity again after each record |
| MemoryChain.EmittedIsConserved | src/picologging/handlers.py:780-819 | over any records, output and buffers are what was emitted |
| MemoryChain.CloseDelivers | src/picologging/handlers.py:796-810 | closing delivers the buffer if and only if the handler flushes on close or has nothing buffered, and loses nothing either way |
| MemoryChain.CloseAllDelivers | src/picologging/handlers.py:796-810 | closing from outermost to deepest with flushOnClose delivers everything to the sink |
| MemoryChain.SmallExactlyIfAttached | src/picologging/handlers.py:780-819 | the buffers of a chain stay below their capacities over all runs if and only if the chain ends in a sink |
| MemoryChain.UnsetTargetOnlyBuffers | src/picologging/handlers.py:780-810 | without a target a handler keeps every record of a run in order, capacity or not, also through `close` |
| MemoryChain.MemoryHandler.Emit | src/picologging/handlers.py:812-819 | appends, and flushes at capacity or flush level: the buffer is empty afterwards exactly then, if there is a target |
| MemoryChain.MemoryHandler.Flush | src/picologging/handlers.py:780-794 | with a target, passes the buffer on in order and clears it; without one, does nothing |
| MemoryChain.MemoryHandler.Close | src/picologging/handlers.py:796-810 | flushes if configured to, then drops the target |
| FormatScan.CountFragments | src/picologging/formatstyle.cxx:368-387 | the counting pass counts exactly the fragments the filling pass writes |
| FormatScan.FillFragments | src/picologging/formatstyle.cxx:100-140 | the filling pass writes every counted fragment, in order, each index within bounds |
| FormatScan.CompileTiles | src/picologging/formatstyle.cxx:106-140 | the fragments' source texts tile the format string in order, without gap or overlap: each is a match, or a literal running up to the next match |
| FormatScan.TilingIsUnique | src/picologging/formatstyle.cxx:106-140 | no other fragments tile the string that way |
| FormatScan.RenderIsInterpret | src/picologging/formatstyle.cxx:188-304 | rendering the fragments equals reading the string character by character, failing fields included, for every format string |
| FormatScan.TakenIsCompiled | src/picologging/formatstyle.cxx:106-134 | every match that no match counted before it overlaps becomes a fragment |
| FormatScan.CompiledIsTaken | src/picologging/formatstyle.cxx:106-134 | and every fragment that is no literal comes from such a match |
| FormatCompiler.FieldTextCompiles | src/picologging/formatstyle.cxx:7-8 | the text of a field is one match of the style's regular expression, with the field's name |
| FormatCompiler.MatchExactly | src/picologging/formatstyle.cxx:7-8 | there is a match of a given length exactly where the text of a field of that length begins |
| FormatCompiler.ConversionsAre | src/picologging/formatstyle.cxx:7 | the conversion characters |
| FormatCompiler.TableIsExact | src/picologging/formatstyle.cxx:11-34 | the field table leads the name of each attribute to its slot and no other name anywhere, but for `funcname` |
| FormatCompiler.MembersAreExact | src/picologging/logrecord.cxx:336-360 | the record's attributes are its slots under their own names |
| FormatCompiler.FormatStyle.constructor | src/picologging/formatstyle.cxx:62-146 | both passes agree on any format string; the default format needs exactly the one fragment reserved for it, in both styles |
| FormatCompiler.FormatStyle.Format | src/picologging/formatstyle.cxx:182-304 | the rendering loop returns the direct reading of the format string over the record |
| FormatCompiler.CompiledMeansFormat | src/picologging/formatstyle.cxx:11-34 | for any format made of texts and plain string fields, compiled rendering equals looking up each attribute by name on every record, if and only if no field is spelled `funcname` |
| FormatCompiler.DoubledPercentIsKept | src/picologging/formatstyle.cxx:7 | an escaped percent sign is no field and stays doubled |
| FormatCompiler.AsctimeUsesTime | src/picologging/formatstyle.cxx:148-174 | an asctime fragment implies that the date test finds the field, in both styles |
| FormatCompiler.TableNamesAsctime | src/picologging/formatstyle.cxx:11-34 | the asctime slot has exactly one name in the field table |
| FormatCompiler.BraceAsctimeIsExact | src/picologging/formatstyle.cxx:148-174 | in the brace style the test is exact |
| FormatCompiler.PercentAsctimeExactly | src/picologging/formatstyle.cxx:148-174 | in the percent style the test agrees with the fragments if and only if it finds nothing, or something it finds is a whole field that no earlier field overlaps |
| FormatCompiler.PercentAsctimeIsExact | src/picologging/formatstyle.cxx:148-174 | so it is exact for every format in which no field uses the `%` conversion and each text found is followed by a conversion |
| FormatCompiler.PercentAsctimeIsInexact | src/picologging/formatstyle.cxx:148-174 | the condition can fail: `%` is itself a conversion |
| Formatting.Formatter.constructor | src/picologging/formatter.cxx:61-73 | the cached `usesTime` is the date test of the compiled style |
| Formatting.Formatter.Format | src/picologging/formatter.cxx:86-210 | message, date, rendering, cached exception text and stack text are assembled as specified, and each error leaves the record as far as it got |
| FormattingRuns.NothingIsStale | src/picologging/formatter.cxx:92-119 | the result does not depend on the message or date an earlier formatter left in the record |
| FormattingRuns.FormattersDoNotInterfere | src/picologging/formatter.cxx:86-210 | over any sequence of formatters on one record, a formatter without an exc_text field gives what it would give alone |
| FormattingRuns.AloneExactly | src/picologging/formatter.cxx:122-177 | that condition is exact |
| FormattingResults.WritesMessageAndDate | src/picologging/formatter.cxx:89-119 | a call leaves its message in the record, and its date exactly if the format uses one: by the formatter's own date format, or by default with a comma and three decimal digits of milliseconds |
| FormattingResults.EachRendersItsOwnFields | src/picologging/formatter.cxx:86-126 | in any sequence of formatters on one record, each that succeeds returns a text that has its message, its own date and the other fields in their places |
| FormattingResults.ResultIsInParts | src/picologging/formatter.cxx:128-199 | the result is the body, the exception text and the stack text, each on a line of its own, and the exception text is what was printed without its last line break, or what was cached before |
| FormattingResults.ErrorsExactly | src/picologging/formatter.cxx:86-137 | which error a call raises: for the arguments, for a field that the record does not have, or for exception information that is no tuple and has no text yet |
| ExistingLoggers.SortNames | src/picologging/config.py:123-128 | the dictionary's names, each once, in code-point order |
| ExistingLoggers.MarkChildren | src/picologging/config.py:136-143 | scanning only the names sorted after the configured one finds every name below it |
| ExistingLoggers.ScanClassifies | src/picologging/config.py:134-144 | for any names and whatever the order of the entries, the names left over are those not configured, and exactly those of them below a configured name that existed are marked |
| ExistingLoggers.MarksBelowExactly | src/picologging/config.py:134-144 | the scan marks what is below the configured names, existing or not, for all configurations if and only if the names are prefix closed and the empty name has nothing below it |
| ExistingLoggers.OrderDoesNotMatter | src/picologging/config.py:134-144 | for any names, two orders of the same entries classify every name alike |
| DictConfigLoggers.ConfigureLogger | src/picologging/config.py:294-319 | one entry succeeds exactly if it is good, and then changes that logger's settings, new or not, and no other's |
| DictConfigLoggers.GoodExactly | src/picologging/config.py:286-300 | an entry is good if and only if its level is an integer or a name that the `logging` package knows and its handlers are all configured |
| DictConfigLoggers.AttachedExactly | src/picologging/config.py:286-306 | a configured logger's handlers are exactly those that are named, each once, in the order in which they are first named |
| DictConfigLoggers.HandleExisting | src/picologging/config.py:32-50 | the loop resets the marked and dis- or enables the other remaining loggers, and fails exactly at a marked placeholder |
| DictConfigLoggers.DictConfigurator.Configure | src/picologging/config.py:122-155 | the pass succeeds if and only if every entry is good in that sense and no placeholder is below a configured name that existed without being configured itself; then, in any registry, every logger that existed has the level, handlers and propagation its entry says and is enabled, or is reset, or has `disabled` as told, decided by the configured names and the names that existed alone; every configured name stands for a logger, and a new one has what its entry says |
| DictConfigLoggers.DictConfigurator.ClosedFromTree | src/picologging/config.py:123-128 | in a registry that is prefix closed, "below a configured name that existed" is "below a configured name" |
| DictConfigHandlers.HandlerConfigurator.ConfigureHandler | src/picologging/config.py:220-284 | popping and replacing settings in place computes the handler, and a handler that is put off has its original settings again |
| DictConfigHandlers.MadeExactly | src/picologging/config.py:220-284 | a handler that is made comes from its factory or class; everything but the special keys is passed on, the target of a memory handler as the handler of that name; formatter, level, filters and properties are set on it |
| DictConfigHandlers.PutOffExactly | src/picologging/config.py:235-247 | a handler is put off if and only if it is a memory handler whose formatter is there and whose target is not made yet |
| DictConfigHandlers.HandlerConfigurator.Configure | src/picologging/config.py:87-110 | the two loops perform the two rounds over the sorted names |
| DictConfigHandlers.DeferredAreRaw | src/picologging/config.py:92-106 | what was put off is still a dictionary in the second round, each name once |
| DictConfigTargets.HandlersConfigured | src/picologging/config.py:87-110 | with nothing else wrong, configuration fails if and only if some name that was put off has a target that was put off and does not come before it, and reports the first; on success every target is the handler of that name |
| DictConfigTargets.SuccessIsTopological | src/picologging/config.py:87-110 | on success every handler is made once, after its target |

## Left out

- CPython reference counting, type tables, frame inspection, traceback printing: foreign interfaces. The text of a printed traceback is part of the record.
- Logger and handler filters: whether a logger's filters accept a record is a parameter; filters in configurations are not modelled.
- LoggerObjects.Logger.LogStandard: takes the verdict of the logger's filters as a parameter.
- LoggerObjects.Logger.Log: takes the verdict of the logger's filters as a parameter.
- LoggerObjects.Logger.LogAndHandle: takes the verdict of the logger's filters as a parameter, and no handler raises.
- DictConfigHandlers.HandlerConfigurator.ConfigureHandler: says what is passed to the factory and what is set afterwards; whether the factory, the level check, the filters and the settings under "." accept it is one parameter, as the factory is unknown code. The retry with `strm` is left out.
- Subclasses of `Logger`, user-assigned parents, `setLoggerClass`, `namer`, `rotator` and other callbacks: unconstrained code. The -1 that the ancestor walk returns for a foreign parent cannot occur without them.
- Handlers that raise in the middle of a dispatch, and the level of the fallback handler, which is NOTSET unless it is reached into.
- LoggerRuns.QuietRunCoherent: does not cover `setLevel(NOTSET)`, because the code stores 0 there; the exact condition for that call is in `LoggerGraph.SetLevelCoherence` and `LoggerRuns.CarefulIsExact`.
- LoggerTree.GetLoggerTree: is about one call, because a lost tree can become right again by later calls, so no condition on a run is both necessary and simple.
- Real files, streams, sockets and pickling: a directory is a map from names to lines, a line has its text and its length in bytes. `WatchedFileHandler`, `SocketHandler`, `DatagramHandler` and `HTTPHandler` are not modelled.
- Local time and daylight saving: timed rotation is in UTC. Leap seconds and the microseconds of `atTime` are ignored, as in the code.
- The date suffix of a backup is an injective function of the period it names, instead of `strftime` on a calendar date.
- TimedRotation.TimedRotatingFileHandler.DoRollover: the files that pruning selects are a parameter, as their choice depends on regular expressions over the directory.
- TimedRotation.RunLosesNothing: is about runs without pruning, as pruning deletes backups; that the names differ and that a surviving backup holds its lines is proved with pruning too.
- SizeRotationRuns.RunKeepsSize: bounds bytes only for encodings with one byte per character; for others `SizeRotationRuns.ByteLimitExactly` has the exact condition.
- `start()` on a listener that is already running, bounded queues, and handlers that raise inside the monitor.
- `BufferingHandler` used directly, whose flush only clears the buffer.
- `QueueHandler.prepare`: the copy of the record that is enqueued.
- Two threads calling `getLogger` or `setLevel` at once: the code takes no lock there, and the model is sequential.
- Formats with `defaults`, records that are not picologging's own, the NUL character in formats, and non-ASCII word characters.
- FormatCompiler.CompiledMeansFormat: does not cover widths, precisions, other conversions or escapes, which the compiler does not treat as fields.
- Formatters with a `validate` that fails (it never does) and `strftime` itself, which is a parameter.
- The other sections of a dictionary configuration (formatters, filters, the root logger), `ext://` and `cfg://` values, and two handler entries that share one dictionary object.
- DictConfigLoggers.DictConfigurator.Configure: says which settings loggers end with, and not that caches stay coherent, because a reset stores level 0, nor what an entry named "" or "root" makes of the root logger.
- DictConfigTargets.HandlersConfigured: assumes nothing else is wrong with any handler's settings; what happens otherwise is in the rounds themselves.
- DictConfigLoggers.ConfigureLogger: the level names of the `logging` package are a parameter, as they can be added to.
- `basicConfig`, `addLevelName`, `FilepathCache`, `Filterer` lists: would only add easy members.
