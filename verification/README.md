# SenHub agent: verified core

A Dafny model of the parts of the SenHub agent whose correctness is hardest to see from the code:

- the **periodic scheduler** every probe and push pipeline runs through, and the stop channel it hands to hooks: a
  transition system over Start, Shutdown, ticks, Execute calls, cancellations and budgets, with safety over every
  interleaving and freedom from deadlock; its **failure backoff** as a loop proved against a closed form;
- the **service supervisor** that starts services in order and stops them in reverse under nested deadlines, on a
  discrete clock;
- the **systemd unit rewriting** of `refresh-unit` and `install`: what a rewrite carries over, that refreshing is a
  fixpoint, that it agrees with what install renders, when reconciling an installed service converges, and that the
  two commands never undo each other;
- the **ExecStart line**: printing and reading back command lines;
- the **Windows version resource** reader: a recursive, length-prefixed, aligned format, the resource directory walk
  above it, and the writer both invert;
- the **tag merge**, the **CPU collector** and the **fallback instance identity**.

`dafny verify dfyconfig.toml` checks everything. Code that loops is a method with its loop, proved equal to a function
of its inputs; objects whose fields the code updates (`Supervisor.Supervisor`, `Install.Host`, `CpuModes.Collector`)
are classes. The theorems are lemmas about those functions.

## Layout of the project

| module | holds |
|---|---|
| `VersionBlock`, `VersionEncoding`, `VersionInfo` | version blocks and their grammar, the writer, the resource |
| `ResourceDirectory`, `DirectoryEncoding` | the walk of a section, and resource directories as bytes |
| `Scheduler`, `SchedulerTrace`, `StopChannel`, `Backoff` | the scheduler protocol, the calls of every run, the channel with two closers, the tick loop |
| `Supervisor` | starting and stopping services |
| `UnitFile`, `CommandLine`, `Refresh`, `Install` | unit files, ExecStart lines, refresh-unit, install and reconciliation |
| `UnitLines`, `HandWritten`, `Ownership` | what is carried over and compared, line by line; command lines an operator writes; whom a unit runs as |
| `RefreshProofs`, `InstallProofs`, `ReconcileProofs`, `Agreement`, `TemplateLayout` | what they guarantee, each and together, and which templates satisfy the contract |
| `Tags`, `CpuModes`, `InstanceId` | merging tags, collecting CPU figures, naming a database instance |
| `Results`, `Seqs`, `Bytes`, `Utf16`, `Text` | shared vocabulary |

## Modelling choices

- **Scheduler.** One step is one atomic action, and an action that is not enabled changes nothing, so a theorem over
  all action sequences is a theorem over all interleavings. Each Start that gets past the `started` test adds a run;
  a loop keeps its own run's context, as the goroutine captures it. The state logs the hooks and Execute calls each Start
  and Shutdown makes, and counts those of the loops, so `SchedulerTrace` can say what every run did. A tick can be delivered to a selecting loop at any
  time, also after its ticker was stopped. `stop` of `context.AfterFunc` returns true at most once and only when it
  prevented the callback; the callback closes some time after it is dispatched.
- **Supervisor.** Time is an integer number of nanoseconds. What a service does when asked to stop (return after some
  time with some error, or hang) is an input, and so is the way a select goes when both cases are ready. Each call into
  a service and each cancellation is a method that records itself in a log, so the theorems about order and number are
  about the calls the code makes.
- **Unit files.** A unit is the list of lines its text splits into; `Text.SplitJoin` and `Text.JoinSplit` make the two
  interchangeable. The packaged unit and the root script are parameters under `RefreshProofs.Contract`;
  `TemplateLayout` shows that units laid out as the two shipped ones satisfy it. Rendering a template substitutes
  its ExecStart and WorkingDirectory lines.
- **Text.** A string is a sequence of Unicode scalar values. The code scans bytes, but only for ASCII characters.
- **Version resource.** `int` is 64 bits wide or more, as the bounds checks of the code assume.
- **CPU.** `float64` is modelled by the reals.

## What the code does not do

Some promises do not hold for every input. The exact condition is proved for each, and a witness where the condition
alone does not show one.

- A comment in `Supervisor.Shutdown` says that a service that overruns its budget leaves every later one the full
  allowance. It takes up to the grace from them: `Supervisor.FullAllowanceIff` gives the exact slack the outer
  deadline must have, and `app/cli.go:56-70` sizes that deadline with no slack.
- Reconciliation does not always settle. The key of a carried-over line is read from the raw line, and the
  comparison reads it from the trimmed one, so with an installed line such as ` =1` every run, however many there are,
  rewrites the same file and reports it (`ReconcileProofs.NeverSettles`, `ReconcileProofs.StrayExample`); without such
  a line one run is enough (`ReconcileProofs.SettlesIff`, `ReconcileProofs.Converges`, both directions).
- A reload that failed is never retried: the next run finds the unit on disk as it wants it
  (`ReconcileProofs.ReloadIsNotRetried`, `ReconcileProofs.LoadedAfter`).
- After a Start that failed, Start returns no error and starts nothing until a Shutdown
  (`Scheduler.FailedStartSticks`, `Scheduler.StartOnStarted`).
- The supervisor promises its services that they see the run context cancelled before they are asked to stop. A second
  Start before a Shutdown replaces the function that cancels the first one's context, so the services of the first one
  are stopped without it (`Supervisor.CancelledFirstIff`, both directions). `internal/agent/agent.go:249` starts all
  services in one call.
- An argument that ends in a backslash does not survive printing and reading back (`CommandLine.ArgsRoundTrip`), nor
  does a path with a literal `\x20` (`CommandLine.UnescapeRoundTrip`).
- The mode percentages can add up to more than 100, when a mode's counter goes backwards while at least two others
  advance (`CpuModes.PercentagesIff`, `CpuModes.PercentagesExceed`).
- What a kernel counter gains between two readings whose timestamps did not advance is never reported
  (`CpuModes.RatesTelescope`, `CpuModes.ReportedInFull`).
- A comment in `MergeTags` says the privacy of the first appearance is kept; the code makes a tag private when any
  appearance is (`Tags.MergeTags`).

## Model

| member | source | states |
|---|---|---|
| `VersionBlock.ReadFrame` | packaging/windows/winversion/pe.go:120-155 | the block is cut to its length and its key and value read with a cursor that never leaves it; the four malformed cases give their own errors |
| `VersionBlock.ReadChildren` | packaging/windows/winversion/pe.go:156-163 | the child loop with its aligned cursor is the recursive reader of the rest of the block |
| `VersionBlock.ParseNode` | packaging/windows/winversion/pe.go:120-165 | on every byte string the reader terminates inside its input and gives the tree and length, or the error, of `Parse` |
| `VersionBlock.ParseSound` | packaging/windows/winversion/pe.go:111-165 | every accepted block conforms to the format, with the positions of all its parts |
| `VersionBlock.ParseComplete` | packaging/windows/winversion/pe.go:111-165 | every block that conforms to the format is accepted, with exactly that tree and length |
| `VersionBlock.ParseIffConforms` | packaging/windows/winversion/pe.go:111-165 | the reader returns a tree and a length if and only if the grammar places that tree there |
| `VersionBlock.ChildrenPlaced` | packaging/windows/winversion/pe.go:156-167 | the children of an accepted block start on 4-byte boundaries, lie inside its length and do not overlap |
| `VersionBlock.FrameErrors` | packaging/windows/winversion/pe.go:121-136 | a block too short for a header, a length below six or past the input, and a key without a zero unit in the block each give their own error |
| `VersionBlock.ValueError` | packaging/windows/winversion/pe.go:149-152 | a value, counted in words for a text block, that does not fit in the block is refused |
| `VersionEncoding.EncodeConforms` | packaging/windows/winversion/pe.go:111-165 | a written tree conforms to the format at the positions it was laid out |
| `VersionEncoding.ParseEncode` | packaging/windows/winversion/pe.go:120-165 | a written tree that fits a 16-bit length reads back as itself and consumes its own length, whatever follows it |
| `VersionInfo.DecodeUtf16Z` | packaging/windows/winversion/pe.go:203-213 | the loop decodes the words up to the first zero one; an odd last byte is ignored |
| `VersionInfo.TextOfKeyBytes` | packaging/windows/winversion/pe.go:203-213 | decoding inverts the writing of a NUL-terminated string |
| `VersionInfo.TextRead` | packaging/windows/winversion/pe.go:203-213 | a string value is its text up to the first zero unit whatever follows, and all of it but an odd last byte without one |
| `Utf16.LoneSurrogate` | packaging/windows/winversion/pe.go:212 | an unpaired surrogate anywhere in a text decodes to U+FFFD and leaves the text around it |
| `VersionInfo.CollectStrings` | packaging/windows/winversion/pe.go:186-195 | the strings of every table of every StringFileInfo child, and of no other child, assigned in order |
| `VersionInfo.CollectTables` | packaging/windows/winversion/pe.go:190-194 | the two inner loops assign every string of every table in order |
| `VersionInfo.ParseVersionInfo` | packaging/windows/winversion/pe.go:169-197 | wrong root key and missing fixed information are refused; otherwise both versions and all strings |
| `VersionInfo.InfoIff` | packaging/windows/winversion/pe.go:174-179 | a well-formed block is a version resource if and only if its key is VS_VERSION_INFO and its value has 52 bytes or more and starts with the four signature bytes; which of the two errors otherwise |
| `VersionInfo.SplitPacked` | packaging/windows/winversion/pe.go:199-201 | splitting two packed words gives back the four fields |
| `VersionInfo.AssignedLast` | packaging/windows/winversion/pe.go:186-195 | of several strings with one key the last one stays |
| `VersionInfo.SectionsRead` | packaging/windows/winversion/pe.go:186-195 | reading written sections collects exactly the strings of their string tables |
| `VersionInfo.ReadBack` | packaging/windows/winversion/pe.go:169-213 | a written resource reads back, whatever follows: both four-field versions and the last string of every key |
| `ResourceDirectory.DirEntry` | packaging/windows/winversion/pe.go:89-109 | the entry loop, bounds checks included, is the lookup of the first matching entry; on written directories that is `DirectoryEncoding.LookUpFirst` |
| `ResourceDirectory.LookUpIff` | packaging/windows/winversion/pe.go:87-109 | a lookup gives a field if and only if the first matching integer-ID entry inside the section holds it |
| `ResourceDirectory.FindVersionResource` | packaging/windows/winversion/pe.go:52-85 | the walk with its level loop is the specified descent, errors included |
| `ResourceDirectory.FindIff` | packaging/windows/winversion/pe.go:50-85 | the walk returns data if and only if type, name and language directories lead to an entry that describes those bytes inside the section |
| `DirectoryEncoding.LookUpFirst` | packaging/windows/winversion/pe.go:87-109 | in a directory written with any header, any named entries and then its integer entries, a look-up gives the field of the first integer entry that is wanted |
| `DirectoryEncoding.LookUpNone` | packaging/windows/winversion/pe.go:87-109 | and nothing if there is none, however many named entries there are |
| `DirectoryEncoding.WrittenFound` | packaging/windows/winversion/pe.go:50-85 | three directories and a data entry written anywhere in a section, among anything else: the walk returns the bytes the data entry of the first RT_VERSION leaf describes |
| `DirectoryEncoding.NoneWritten` | packaging/windows/winversion/pe.go:52-59 | a written root directory without an RT_VERSION entry has no version resource |
| `DirectoryEncoding.WrittenRefused` | packaging/windows/winversion/pe.go:60-77 | a leaf where a directory is due, a directory where a leaf is due, an empty directory and a data entry outside the section each give their own error |
| `DirectoryEncoding.OutsideRefused` | packaging/windows/winversion/pe.go:78-84 | a data entry is refused if and only if the bytes it describes are not all in the section |
| `DirectoryEncoding.SectionFound` | packaging/windows/winversion/pe.go:50-109 | a section written out whole, with gaps, reads back as the data written to it |
| `ResourceDirectory.ReadVersionInfo` | packaging/windows/winversion/pe.go:24-48 | a file that does not open, a section that cannot be read, no version resource, a broken directory and a bad resource each give their own error; the versions and strings otherwise |
| `ResourceDirectory.FileReadBack` | packaging/windows/winversion/pe.go:24-213 | a section that leads to a written resource gives back its versions and strings, whatever else it holds |
| `DirectoryEncoding.SectionReadBack` | packaging/windows/winversion/pe.go:24-213 | a version resource written into a written section comes back from the file: its versions and strings |
| `StopChannel.StepInv` | internal/agent/lifecycle/lifecycle.go:69-79 | every step keeps one committed closer per channel, none before either event |
| `StopChannel.ClosedExactlyOnce` | internal/agent/lifecycle/lifecycle.go:58-79 | over every interleaving of cancellation and releases the channel is closed at most once, and once either event occurred and the goroutines ran, exactly once |
| `Scheduler.StepInv` | internal/agent/periodic_scheduler/periodic_scheduler.go:95-333 | every step of every participant keeps the invariant of mutex, fields, runs and hook channels |
| `Scheduler.AfterInv` | internal/agent/periodic_scheduler/periodic_scheduler.go:95-333 | the invariant holds in every reachable state |
| `Scheduler.NoOverlap` | internal/agent/periodic_scheduler/periodic_scheduler.go:148-157 | two Execute calls never overlap: not two loops, not a loop and a Start or Shutdown |
| `Scheduler.OneUncancelledLoop` | internal/agent/periodic_scheduler/periodic_scheduler.go:52-79 | a live loop whose context is not cancelled is the last run's, and the scheduler is started |
| `Scheduler.ShutdownOrder` | internal/agent/periodic_scheduler/periodic_scheduler.go:289-328 | the final Execute and OnShutdown come after the cancellation, after the loop exited or the budget expired, and with exactly one closer of the hook channel committed |
| `Scheduler.ChannelsClosedOnce` | internal/agent/periodic_scheduler/periodic_scheduler.go:120-121 | no hook channel of any run is closed twice, whoever stops the run |
| `Scheduler.NothingAbandoned` | internal/agent/periodic_scheduler/periodic_scheduler.go:303-314 | a loop is abandoned only by an expired stop budget |
| `Scheduler.SettledWithoutExpiry` | internal/agent/periodic_scheduler/periodic_scheduler.go:303-314 | unless a stop budget expired, a stopped scheduler has no tick loop left, of any run |
| `Scheduler.ExitedForGood` | internal/agent/periodic_scheduler/periodic_scheduler.go:170-179 | a loop that exited stays exited through any later restarts |
| `Scheduler.HelpfulHelps` | internal/agent/periodic_scheduler/periodic_scheduler.go:72-78 | in every state some step of the operation, or of the loop it waits for, is enabled and makes progress |
| `Scheduler.CanFinish` | internal/agent/periodic_scheduler/periodic_scheduler.go:72-78 | no deadlock: from every reachable state the Start or Shutdown in progress can end without a budget expiring |
| `Scheduler.StartOnStarted` | internal/agent/periodic_scheduler/periodic_scheduler.go:95-146 | Start on a started scheduler changes nothing, and that scheduler has no loop if and only if it has no interval or its Start failed |
| `Scheduler.FailedStartSticks` | internal/agent/periodic_scheduler/periodic_scheduler.go:99-125 | once a Start has failed, whatever happens next short of a Shutdown adds no run and starts no loop, and the scheduler stays marked started |
| `SchedulerTrace.StepTrace` | internal/agent/periodic_scheduler/periodic_scheduler.go:95-333 | every step keeps the log of calls: what the operation in progress has called when it has got so far |
| `SchedulerTrace.RunsTraced` | internal/agent/periodic_scheduler/periodic_scheduler.go:95-333 | over every interleaving a run that is over made the calls of one whole Start and one whole Shutdown and no other, and a run that is up those of one whole Start |
| `SchedulerTrace.SuccessfulStart` | internal/agent/periodic_scheduler/periodic_scheduler.go:110-146 | a Start that succeeds called OnStart once if and only if there is one, then Execute once if and only if ExecuteOnStart is set, successfully if FailOnStartError is |
| `SchedulerTrace.FinishedShutdown` | internal/agent/periodic_scheduler/periodic_scheduler.go:289-333 | a Shutdown that returned made its final Execute if and only if ExecuteOnShutdown is set, called OnShutdown if and only if there is one and that Execute did not fail, and returned an error if and only if one of them did |
| `SchedulerTrace.AttemptsAccounted` | internal/agent/periodic_scheduler/periodic_scheduler.go:165-267 | every attempt of every loop has made one Execute call, waits to make it or is in it; a run has a hook channel if and only if OnStart is configured |
| `SchedulerTrace.AttemptReachesExecute` | internal/agent/periodic_scheduler/periodic_scheduler.go:148-157 | from every reachable state a waiting attempt gets to Execute when the call in progress returns |
| `SchedulerTrace.TickReachesExecute` | internal/agent/periodic_scheduler/periodic_scheduler.go:165-267 | a tick that is not skipped, on a loop in its select, ends in one Execute call |
| `Backoff.TickLoop` | internal/agent/periodic_scheduler/periodic_scheduler.go:165-267 | after any outcomes errorCount is the current run of failures, backoffTicks is 0 below the threshold and min(2^(errorCount-MaxRetries+1)-1, 8) from it on, skipRemaining is what is left to wait, and a tick attempts exactly when nothing is |
| `Backoff.WaitedWithinWidth` | internal/agent/periodic_scheduler/periodic_scheduler.go:215-261 | no more ticks are ever skipped in a row than the width, and never more than eight |
| `Backoff.NineTicksAttempt` | internal/agent/periodic_scheduler/periodic_scheduler.go:13-17 | any nine consecutive ticks contain an attempt |
| `Backoff.AttemptRate` | internal/agent/periodic_scheduler/periodic_scheduler.go:13-17 | any window of n ticks contains at least n/9 attempts |
| `Backoff.NoThresholdAttemptsAlways` | internal/agent/periodic_scheduler/periodic_scheduler.go:32-37 | without a positive MaxRetries every tick attempts |
| `Backoff.Gap` | internal/agent/periodic_scheduler/periodic_scheduler.go:215-240 | the distance to the next attempt is one more than the width the failures call for |
| `Backoff.FailingGaps` | internal/agent/periodic_scheduler/periodic_scheduler.go:13-17 | in an all-failing run the gaps never shrink, and a gap is nine if and only if MaxRetries + 3 attempts have been made |
| `Backoff.WidthIs` | internal/agent/periodic_scheduler/periodic_scheduler.go:13-17 | no tick is skipped below the threshold, then one, three, seven and eight |
| `Backoff.FailuresSince` | internal/agent/periodic_scheduler/periodic_scheduler.go:224-261 | the failures counted are those since the last success |
| `Backoff.SuccessResets` | internal/agent/periodic_scheduler/periodic_scheduler.go:224-261 | after a success every tick attempts until the threshold is reached again |
| `Supervisor.StopBudget` | internal/agent/lifecycle/lifecycle.go:49-56 | the declared budget exactly when it is positive, the default otherwise, so every service has a positive one |
| `Supervisor.TotalStopBudget` | internal/agent/lifecycle/supervisor.go:141-147 | the loop sums the budgets |
| `Supervisor.Supervisor.StartService` | internal/agent/lifecycle/supervisor.go:51 | the call of a service's Start with the run context, recorded with what it returned |
| `Supervisor.Supervisor.CancelContext` | internal/agent/lifecycle/supervisor.go:86-88 | the cancellation of a run context, recorded |
| `Supervisor.Supervisor.CallShutdown` | internal/agent/lifecycle/supervisor.go:156-157 | the call of a service's Shutdown with its deadline, recorded; when it answers, if ever |
| `Supervisor.Supervisor.ShutdownBounded` | internal/agent/lifecycle/supervisor.go:155-177 | the service is asked to stop once, with its deadline; the two selects end with its answer, or with a deadline error a grace after the context is done (`Supervisor.StopIs` states it on the clock) |
| `Supervisor.Supervisor.constructor` | internal/agent/lifecycle/supervisor.go:28-31 | nothing started, no run context |
| `Supervisor.Supervisor.Start` | internal/agent/lifecycle/supervisor.go:40-67 | every service is called once, in order, with one new run context; those that came up are appended, and exactly the failures are returned |
| `Supervisor.Supervisor.Shutdown` | internal/agent/lifecycle/supervisor.go:78-133 | the calls made: the cancellation first, then one stop per started service in reverse; fields cleared; the non-deadline errors and the time of the last stop |
| `Supervisor.OneRun` | internal/agent/lifecycle/supervisor.go:36-133 | for any start results and any number of Shutdown calls, every service is started once in order, the context is cancelled, and exactly the services that came up are asked to stop, once, in reverse start order |
| `Supervisor.EachStoppedOnce` | internal/agent/lifecycle/supervisor.go:33-133 | over any sequence of Start and Shutdown calls the services that came up are those asked to stop plus those still running, counted with multiplicity |
| `Supervisor.CancelledFirstIff` | internal/agent/lifecycle/supervisor.go:14-18 | over any sequence of calls every service is stopped after its own context was cancelled if and only if no Shutdown follows a Start that replaced the context of running services |
| `Supervisor.ErrorsInStopOrder` | internal/agent/lifecycle/supervisor.go:105-126 | the errors returned are those of the stops that failed otherwise than on a deadline, one each, in stop order |
| `Supervisor.StopIs` | internal/agent/lifecycle/supervisor.go:149-177 | on the clock: each stop begins when the one before ended, its deadline is its budget cut to the outer one, it ends with the answer and at its time if and only if that comes before the grace is over, and with a deadline error when it is over otherwise |
| `Supervisor.EndsLast` | internal/agent/lifecycle/supervisor.go:92-133 | a Shutdown ends when its last stop does |
| `Supervisor.ErrorsAreAnswers` | internal/agent/lifecycle/supervisor.go:105-126 | the errors of a Shutdown are exactly the errors of the services whose Shutdown fails in time, in stop order; hanging, late and deadline-exceeding ones add none |
| `Supervisor.StartKept` | internal/agent/lifecycle/supervisor.go:50-66 | the errors of a Start are those its services returned, and the running services those that returned none, both in start order |
| `Supervisor.ElapsedBounded` | internal/agent/lifecycle/supervisor.go:149-177 | whatever the services do, a Shutdown takes at most the time to the outer deadline, and at most the budgets, plus one grace per service |
| `Supervisor.NoStarvation` | internal/agent/lifecycle/supervisor.go:69-77 | services that keep to their budgets each get the whole of it if the outer deadline covers the sum |
| `Supervisor.ConfiguredTotalSuffices` | internal/agent/lifecycle/supervisor.go:135-147 | an outer deadline sized from all configured services is enough for any subset that came up |
| `Supervisor.HangingStarves` | internal/agent/lifecycle/supervisor.go:69-73 | with any less slack, services that hang take from a later one's allowance |
| `Supervisor.FullAllowanceIff` | internal/agent/lifecycle/supervisor.go:69-73 | every service is sure of its whole budget whatever the others do if and only if the outer deadline covers the budgets and a grace for each service but the last |
| `CommandLine.UnitArgs` | app/credentials_dropin.go:60-90 | the character loop with its quote and started flags splits as the specified scan; what that gives is `HandWritten.ArgumentsRead` and `CommandLine.ArgsRoundTrip` |
| `CommandLine.UnitConfigPath` | app/credentials_dropin.go:43-58 | the first --config-path in either spelling, or nothing |
| `CommandLine.ArgsRoundTrip` | app/credentials_dropin.go:60-90 | reading printed arguments gives them back, spaces, quotes and empty ones included, if and only if none ends in a backslash |
| `CommandLine.ExecLineSplits` | app/refresh_unit.go:311-317 | a printed line splits into its escaped path and its printed arguments, for every path whose escaped form no trimming cuts |
| `CommandLine.LineRoundTrip` | app/install_unit.go:10-16 | the arguments of a printed ExecStart line are those it was printed from if and only if none ends in a backslash |
| `CommandLine.ConfigPathRoundTrip` | app/credentials_dropin.go:43-58 | the configuration path install wrote is the one read back from the unit |
| `CommandLine.UnescapeRoundTrip` | app/refresh_unit.go:319-324 | unescaping inverts escaping if and only if the path has no literal `\x20` |
| `CommandLine.UnescapeIs` | app/refresh_unit.go:319-324 | text without the escape stays as it is and each escape in it becomes a space |
| `HandWritten.ArgumentsRead` | app/credentials_dropin.go:60-90 | any words, plain, quoted or mixed, with any number of spaces before, between and after them, are read as exactly those words |
| `HandWritten.UnclosedRead` | app/credentials_dropin.go:60-90 | a quote that is never closed takes the rest of the line |
| `HandWritten.ConfigPathIs` | app/credentials_dropin.go:43-58 | the first flag in either spelling decides: the field after it or what follows the equals sign; a flag without a value, or none, gives nothing |
| `HandWritten.LineRead` | app/credentials_dropin.go:43-90 | the path and the arguments of an ExecStart line an operator wrote |
| `UnitFile.ServiceSectionLines` | app/refresh_unit.go:162-177 | the directive lines of the [Service] sections, in order |
| `UnitFile.ServiceDirectiveKeys` | app/refresh_unit.go:179-189 | the set of their keys |
| `UnitFile.KeyIs` | app/refresh_unit.go:191-199 | the key is what stands before the first equals sign, trimmed; none without one or with nothing before it |
| `UnitFile.KeyOfTrimmed` | app/refresh_unit.go:191-199 | trimming a line first changes its key only when what is left starts with an equals sign |
| `UnitFile.InsertBlock` | app/refresh_unit.go:140-158 | the insertion loop puts the block before the first header, past the first line, that is not [Service], and at the end without one |
| `UnitFile.WithPreservedDirectives` | app/refresh_unit.go:103-160 | the unit written is the new one with the installed unit's unmanaged directives inserted; which lines those are is `UnitLines.RewriteIs` |
| `UnitFile.DirectivesConserved` | app/refresh_unit.go:93-160 | the unmanaged [Service] lines are the same before and after, in order and number, if and only if there are none or the insertion point lies in [Service]; none has a decided or retired key |
| `UnitLines.KeysIff` | app/refresh_unit.go:162-189 | a key is managed if and only if a line that stands in a [Service] section, and is no comment, sets it |
| `UnitLines.ExtrasKept` | app/refresh_unit.go:103-138 | what is carried over are, in order, the [Service] lines of the installed unit with a key that the new unit does not set and that is none of ExecStart, WorkingDirectory, User, Group, MemoryDenyWriteExecute and ProtectClock |
| `UnitLines.RewriteIs` | app/refresh_unit.go:103-160 | the written unit is the new one with one block, the comment and those lines, before the first header past the first line that is not [Service]; no other line is added |
| `UnitLines.OperatorLinesConserved` | app/refresh_unit.go:93-160 | those lines are in the [Service] sections of the written unit as often and in the same order as in the installed one, and no others, if and only if there are none or the insertion point is in a [Service] section |
| `Refresh.InstalledServiceUser` | app/refresh_unit.go:201-219 | the first User= decides; root without one or with an empty one |
| `Refresh.InstalledExecStart` | app/refresh_unit.go:282-296 | the first line of each of the two kinds, trimmed |
| `Refresh.PackagedExecStartLine` | app/refresh_unit.go:298-309 | the packaged ExecStart line, trimmed |
| `Refresh.CanonicalRootUnit` | app/refresh_unit.go:248-280 | the root script with the packaged ExecStart and without the guarded WorkingDirectory |
| `Refresh.CanonicalUnitForUser` | app/refresh_unit.go:221-246 | the canonical unit of root, of the default user and of any other |
| `Ownership.CanonicalOwner` | app/refresh_unit.go:221-246 | the canonical unit of any user but root runs as that user, and in that user's group if the packaged unit sets one |
| `Ownership.FirstWithIs` | app/refresh_unit.go:282-296 | the line read is the first with the prefix, whatever is around it |
| `Ownership.ServiceUserIs` | app/refresh_unit.go:201-219 | the first User= line names the user; root if it is blank or there is none |
| `Refresh.RefreshedUnitBody` | app/refresh_unit.go:52-91 | the four ExecStart rules choose what is spliced into the canonical unit |
| `Refresh.SpliceExec` | app/refresh_unit.go:78-90 | every ExecStart line is replaced by the chosen lines |
| `Refresh.RefreshedUnit` | app/refresh_unit.go:42-50 | preservation wraps every outcome of the rules |
| `RefreshProofs.CanonicalShape` | app/refresh_unit.go:221-280 | under the contract the canonical unit of every user has one ExecStart line, no WorkingDirectory and that user |
| `RefreshProofs.DecidedTwice` | app/refresh_unit.go:56-76 | deciding again on what the rules decided decides the same |
| `RefreshProofs.RefreshedTwice` | app/refresh_unit.go:42-50 | refreshing a refreshed list of lines gives that list |
| `RefreshProofs.RefreshIsFixpoint` | app/refresh_unit.go:42-50 | refreshing a refreshed unit file changes nothing, across all rules, users and directives |
| `RefreshProofs.RefreshRules` | app/refresh_unit.go:25-91 | what a refreshed unit runs: the same user; the packaged line, the installed lines, or the installed arguments behind the system binary |
| `RefreshProofs.RefreshConserves` | app/refresh_unit.go:103-160 | through a refresh the unmanaged [Service] lines stay, in order and number, with no decided or retired key among them |
| `UnitLines.RefreshKeepsOperatorLines` | app/refresh_unit.go:42-160 | the same by position: the [Service] lines with a key of the operator's are the same before and after, as often and in the same order |
| `Install.HardenedSystemdScript` | app/service_unit.go:26-50 | the packaged unit with its user lines and its ExecStart line re-templated |
| `Install.ManagedUnitLines` | app/install_unit.go:60-80 | the lines compared: trimmed, without blanks, the comment and unmanaged [Service] directives; by position, `UnitLines.ManagedKept` |
| `Install.UnitMatches` | app/install_unit.go:44-58 | equality of the managed lines under the desired unit's keys; by position, `UnitLines.MatchesIff` and `UnitLines.LineChanged` |
| `UnitLines.ManagedKept` | app/install_unit.go:60-80 | what a comparison looks at are, in order and trimmed, all lines but blank ones, the comment and the operator's [Service] directives |
| `UnitLines.MatchesIff` | app/install_unit.go:44-58 | two units match if and only if those lines are the same |
| `UnitLines.LineChanged` | app/install_unit.go:44-80 | of a matching unit any one line that is not a header may be added, removed or changed: it goes on matching if and only if the line was and is set aside, or reads the same trimmed |
| `Install.Host.constructor` | app/install_unit.go:84-94 | the host as given |
| `Install.Host.ReconcileInstalledService` | app/install_unit.go:96-126 | the new host state, the change list and the error, for every combination of failing operations |
| `InstallProofs.DesiredIsSpliced` | app/install_unit.go:38-42 | what install renders is the canonical unit of that user with its ExecStart place filled in |
| `Ownership.DesiredOwner` | app/service_unit.go:26-50 | and it runs as that user and in the same group as the canonical one |
| `InstallProofs.InstallThenRefresh` | app/service_unit.go:26-95 | refreshing the lines install rendered changes nothing if and only if the system binary exists and the rendered line is not the packaged one |
| `InstallProofs.InstallThenRefreshText` | app/install_unit.go:18-42 | the same of the files, for any user and one-line arguments |
| `InstallProofs.InstalledUnitIsStable` | app/refresh_unit.go:32-36 | with a quote-free packaged line and arguments, a refresh leaves an installed unit alone if and only if the system binary exists |
| `ReconcileProofs.WrittenMatches` | app/install_unit.go:108-112 | the unit written matches the one desired if and only if it carries over no line whose trimmed form starts with an equals sign |
| `ReconcileProofs.Converges` | app/install_unit.go:96-126 | after a run without an error the service is enabled, and a second run changes and reports nothing if and only if the unit is the package's, already matched, or carries no such line |
| `ReconcileProofs.ReconcileReports` | app/install_unit.go:96-126 | for every combination of failing operations: which error, what is reported as changed, and what becomes of the unit, the loaded unit and the enabled state |
| `ReconcileProofs.LoadedAfter` | app/install_unit.go:113-118 | a successful run leaves systemd on the unit on disk if and only if it already was or the run rewrote the unit |
| `ReconcileProofs.ReloadIsNotRetried` | app/install_unit.go:113-115 | after a failed reload the next run reports nothing to do and systemd stays on the old unit |
| `ReconcileProofs.WrittenTwice` | app/refresh_unit.go:103-160 | a rewritten unit carries the same lines and is rewritten as it is |
| `ReconcileProofs.NeverSettles` | app/install_unit.go:96-126 | with a stray line carried over, after any number of runs, whatever fails in them, every run that succeeds writes the same file again and reports it |
| `ReconcileProofs.SettlesIff` | app/install_unit.go:96-126 | some number of runs brings the unit to the desired one if and only if it already is that or carries no stray line |
| `ReconcileProofs.StrayExample` | app/refresh_unit.go:129-135 | what install rendered with a line such as ` =1` added to its [Service] section never becomes what install wants |
| `Agreement.MatchingReads` | app/install_unit.go:44-58 | units that match have the same user, ExecStart and WorkingDirectory |
| `Agreement.RefreshAgrees` | app/refresh_unit.go:42-91 | on every unit that matches what install wants, operator directives included, a refresh writes what a reconciliation would, if and only if the system binary exists and the rendered line is not the packaged one |
| `Agreement.RefreshKeepsWritten` | app/install_unit.go:108-112 | a refresh leaves what a reconciliation wrote alone, whatever it was run on, under exactly that condition |
| `Agreement.CommandsAgree` | app/refresh_unit_linux.go:30-112 | over any sequence of refreshes and reconciliations, failing or not, a matching unit without a stray line goes on matching and is rewritten to one text only |
| `TemplateLayout.PackagedLayout` | app/senhub-agent.service:1-30 | a packaged unit laid out as the shipped one satisfies the contract |
| `TemplateLayout.RootLayout` | app/service_unit.go:52-84 | a root script laid out as the shipped one satisfies the contract |
| `Tags.MergeTags` | internal/agent/tags/custom_tags.go:24-47 | nested loops with a position index give one tag per key, in first-appearance order, with the last value, private if any was; the index agrees with the list at every step |
| `Tags.FirstKeysAre` | internal/agent/tags/custom_tags.go:27-28 | the keys of a merge are distinct and are keys of the input |
| `Tags.MergedOneMore` | internal/agent/tags/custom_tags.go:33-44 | one more tag appends a new key or updates a known one in place |
| `Tags.MergedReads` | internal/agent/tags/custom_tags.go:24-28 | a merge has the same keys, values and privacy as what it merged |
| `Tags.FlatIs` | internal/agent/tags/custom_tags.go:32-33 | layers are taken one after the other, all of their tags |
| `Tags.MergedAt` | internal/agent/tags/custom_tags.go:24-47 | by position: the tag of a key has the value of the last tag with that key, is private if and only if one of them is, and stands where the first of them puts it |
| `Tags.MergeNested` | internal/agent/tags/custom_tags.go:24-28 | merging a part first, on either side, makes no difference |
| `Tags.MergeAssociative` | internal/agent/tags/custom_tags.go:24-28 | nested merging of layers on either side equals merging all layers at once |
| `Tags.MergeIdempotent` | internal/agent/tags/custom_tags.go:24-28 | merging a merge changes nothing |
| `CpuModes.Collector.constructor` | internal/agent/probes/cpu/cpuProbe_unix.go:116-125 | nothing to compare with yet |
| `CpuModes.Collector.CollectCPUTimes` | internal/agent/probes/cpu/cpuProbe_unix.go:104-208 | no points on an error, an empty reading, a first reading or no elapsed CPU time; the ten mode percentages otherwise; the snapshot is kept |
| `CpuModes.Collector.CollectKernelCounters` | internal/agent/probes/cpu/cpuProbe_unix.go:331-382 | the gauge always, a rate for each counter that did not go backwards once time has passed; the reading is kept |
| `CpuModes.PointsByName` | internal/agent/probes/cpu/cpuProbe_unix.go:128-205 | each of the ten points by its name: its share of the total in terms of the two snapshots, guest time taken out of user and nice where that is not negative, kept between 0 and 100; none without elapsed CPU time |
| `CpuModes.CounterPointsAre` | internal/agent/probes/cpu/cpuProbe_unix.go:331-382 | the running processes first, and as many rates as counters that did not go backwards once time has passed |
| `CpuModes.EmittedRate` | internal/agent/probes/cpu/cpuProbe_unix.go:347-380 | the value emitted for a counter is what it gained over the time that passed |
| `CpuModes.PercentagesIff` | internal/agent/probes/cpu/cpuProbe_unix.go:128-196 | for any two snapshots with CPU time elapsed the ten percentages lie between 0 and 100 and sum to 100 or more, and to exactly 100 if and only if no mode went backwards or a single one went forwards |
| `CpuModes.PercentagesAddUp` | internal/agent/probes/cpu/cpuProbe_unix.go:128-196 | between monotone snapshots they sum to exactly 100 |
| `CpuModes.PercentagesExceed` | internal/agent/probes/cpu/cpuProbe_unix.go:161-174 | snapshots whose percentages add up to more than 100 |
| `CpuModes.RatesTelescope` | internal/agent/probes/cpu/cpuProbe_unix.go:347-380 | over any run of readings the emitted rates times their elapsed times add up to last minus first, plus what resets took, less what came with no time elapsed |
| `CpuModes.ReportedInFull` | internal/agent/probes/cpu/cpuProbe_unix.go:347-364 | a counter that was never reset is reported in full if and only if it never advanced between readings with no time between them |
| `InstanceId.ItoaInjective` | internal/agent/probes/dbcommon/instanceid.go:48-54 | two ports print alike only if they are equal |
| `InstanceId.IdentityIs` | internal/agent/probes/dbcommon/instanceid.go:48-54 | a loopback address with a host id and a system name gives system:port@host, anything else address:port |
| `InstanceId.LocalInjective` | internal/agent/probes/dbcommon/instanceid.go:50-52 | host-scoped identities determine system, port and host when colons stay out of the systems or out of the hosts |
| `InstanceId.RemoteInjective` | internal/agent/probes/dbcommon/instanceid.go:53 | address and port are determined, for any address |
| `InstanceId.LocalIsRemoteIff` | internal/agent/probes/dbcommon/instanceid.go:48-54 | a host-scoped identity is also a remote one if and only if its host id ends in a colon and that port |
| `InstanceId.IdentitiesDistinct` | internal/agent/probes/dbcommon/instanceid.go:48-54 | with host ids without a colon, equal identities come from the same kind of target with the same parts |

## Left out

- Panics in Execute and their recovery, logging, health reporting and the scheduler's timing: ticks are events, not times.
- Fairness of the Go scheduler: `Scheduler.CanFinish` shows that an operation can end, not that it must.
- A caller that cancels the context of `Supervisor.Shutdown` early, and integer overflow of durations and counters.
- Concurrent calls of the supervisor's own Start and Shutdown.
- Supervisor.Supervisor.Shutdown: a service that was abandoned is not followed any further, as the process is about to exit.
- Template parsing and execution errors, and units in which the two template lines are not lines of their own.
- systemd's own reading of units: line continuations, drop-ins and quoting rules beyond what the code looks at.
- The diff printed by refresh-unit, the installer's other steps and the CLI: printing and sequences of host commands.
- PE section headers: whether the file opens, and the section's bytes and address, are inputs.
- CPU usage totals, per-core values, load and the reading of the kernel's files.
- CpuModes.PercentagesIff: rounding of `float64` is not modelled, so the sums are those of exact arithmetic.
- `entity.IsLoopbackHost` and the lookup of the host id are parameters of the identity.
- `MapToTags`: sorting a map's keys, which no other part depends on.
- Probes, transports, configuration and everything else in the agent.
