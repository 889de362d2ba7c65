# A verified model of jobrunner, unjumble and the integration client and server

This project models, in Dafny, the core of three small C programs:

- **jobrunner** (A3/parse.c, A3/running.c). It has four stages:
  - It reads the command line and the job files. Each data line of a job file becomes a job: a program, where its input comes from and where its output goes, an optional timeout, and extra arguments.
  - It validates the jobs. Input and output files must open. Every `@name` pipe must have exactly one reader and one writer. A single cascade pass then disables both ends of a pipe when either end is disabled.
  - It creates one OS pipe per pipe name, forks every enabled job and closes its own copies of the descriptors.
  - It polls the children once a second. It aborts jobs that outlive their timeout, kills every job on SIGHUP, and reports how each job ended.
- **unjumble** (A1/unjumble.c). It checks its arguments (specifier, `-include` letter, letters, dictionary). It keeps the dictionary words that can be spelt from the letters, ignoring case and using each letter at most once. It then orders the words by `-alpha`, `-len` or `-longest`.
- **intclient / intserver** (A4/intclient.c, A4/intserver.c, A4/common.c). It models:
  - the command-line checks of both programs;
  - the client's syntax and parameter checks of a job line, and the validation request it sends;
  - the server's validity check of an integration request, and its classification of incoming requests.

Modelling choices:

- Records the source updates in place become arrays or classes:
  - the jobrunner job list is an `array<Job>`;
  - the unjumble word lists are `array<Option<string>>`, with `None` for NULL;
  - `ArgStructs`, `ClientInfo`, `ServerInfo` and `IntegrationJob` are classes.
- Loops in the source are methods with loop invariants. Each is proved against a function that specifies it, and the lemmas state the properties of those functions.
- Everything the programs get from the operating system or from library code outside the core is a parameter:
  - what `open`, `fopen`, `pipe`, `fork` and `waitpid` return;
  - the SIGHUP flag;
  - the fields `split_by_commas` produces;
  - what `%lf` reads;
  - whether tinyexpr compiles an integrand;
  - the result of the HTTP request parser.
- Signals sent and lines written to stderr are outputs.
- Integers that C stores in an `int` are stored as that `int`:
  - `%d` and `atoi` on out-of-range text store what glibc stores: saturate to a 64-bit long, then keep the low 32 bits (`NumScan.Narrow`);
  - a job's timeout is `atoi` of its field, so "4294967296" means no timeout, "4294967295" is -1 (SIGKILL at the first poll) and "2147483648" is INT_MIN (SIGABRT at the first poll) (`JobParse.TimeoutStored`);
  - the client's `%d` round trip is proved to accept exactly the renderings of 32-bit values.
- Undefined behaviour in the source is a precondition. Each such precondition is listed under "## Left out".

Facts about the jobrunner code that the model makes explicit:

- **Cascade.** `check_cascade` makes a single pass over the pipe list, so a disabled job three links down a chain does not reach the first job. `PipeCheckFacts.CascadeNotClosed` exhibits this: jobs `A→@a→B→@b→C` with C disabled end as `[true, false, false]`.
- **Pipe creation.** `create_pipes` creates one pipe per distinct name over all jobs, disabled ones and invalid pipes included (`Launcher.CreatePipes`).
- **Timeouts.** `moniter_jobs` compares one global seconds counter, started after all forks, with each job's timeout, so a job's timeout is not measured from its own launch (`Supervisor.PollJobSpec`).
- **Self pipe.** A job that reads and writes the same pipe, which no other job uses, counts as one reader and one writer, so the pipe is valid (`PipeRegistry.SelfPipeIsValid`).
- **Failed exec.** A child that cannot run its program exits with 255, which the supervisor reports like any other exit; `execvp` itself is not part of this model.

## Model

| member | source | states |
|---|---|---|
| CStrings.CountArgs | A3/parse.c:186-192 | the count is the index of the first NULL, and every entry before it is a string (also `count_args` of A4/intclient.c:167-173) |
| CStrings.IsEmptySpec | A3/parse.c:288-299 | `is_empty` is 0 or 1, and 1 exactly when every character is whitespace, the empty line included (also A4/intclient.c:238-249) |
| Decimal.NatToStringRoundTrip | A4/intclient.c:220-221 | reading back the `%d` digits of a natural number gives that number |
| Decimal.IntToStringCanonical | A4/intclient.c:220-223 | the `%d` rendering has no '+', a leading '0' only in "0", a '-' exactly for negatives and never "-0…" |
| Decimal.NatToStringInjective | A4/intclient.c:223 | two natural numbers with the same digits are equal |
| Decimal.IntToStringInjective | A4/intclient.c:223 | two ints with the same `%d` rendering are equal, so the string comparison compares values |
| NumScan.Narrow | A4/intclient.c:205-206 | the int stored is always in the 32-bit range and equals the value read when that value fits |
| NumScan.Atoi | A4/intserver.c:79 | `atoi` yields a 32-bit int, and 0 when the text holds no number |
| NumScan.AtoiDigits | A3/parse.c:341 | `atoi` of a field of digits alone is the digits' value cut to an int, and 0 for the empty field |
| NumScan.ScanRendered | A4/intclient.c:205-206 | `%d%n` reads the whole `%d` rendering of any int back to that int |
| NumScan.RenderedIff | A4/intclient.c:217-227 | the `%d` round trip accepts a field exactly when it is the rendering of some 32-bit int |
| NumScan.OutOfRangeRejected | A4/intclient.c:217-227 | a number outside the int range fails the round trip, whatever glibc stored for it |
| NumScan.RenderedShape | A4/intclient.c:217-227 | an accepted field has no leading whitespace, no '+', no leading zero and is not "-0" |
| Jobs.CountEnabled | A3/parse.c:609-614 | the number of runnable jobs is at most the number of jobs |
| Jobs.CountEnabledZero | A3/parse.c:609-619 | there are no runnable jobs exactly when every job is disabled |
| JobParse.UsageScanSpec | A3/parse.c:39-50 | the argument loop of `check_usage` fails with the usage exit exactly when "-v" stands at index 2 or later |
| JobParse.CheckUsageSpec | A3/parse.c:29-57 | usage error (status 1, usage text) exactly for no argument, a misplaced "-v" or a lone "-v"; otherwise verbose exactly when argv[1] is "-v" |
| JobParse.TimeoutFromSpec | A3/parse.c:199-207 | the scan from index i is 0 or 1, and 1 exactly when every later character is a digit |
| JobParse.CheckTimeoutSpec | A3/parse.c:199-207 | `check_timeout` accepts exactly the all-digit strings, the empty field included (which reads as 0) |
| JobParse.AddJob | A3/parse.c:215-238 | the new job holds the three mandatory fields, is enabled and unterminated, has timeout 0, pid -1, slots (0, 1, -1) and no arguments |
| JobParse.AddOpArgs | A3/parse.c:272-281 | with extra arguments, the fields after the timeout become the job's arguments; otherwise the job is unchanged |
| JobParse.ParseJobLineSpec | A3/parse.c:329-347 | a line is rejected exactly when it has under three fields, an empty mandatory field or a non-digit timeout; an accepted line yields an enabled default job whose timeout is the digits' value cut to an int as `atoi` does, and the extra arguments |
| JobParse.TimeoutStored | A3/parse.c:339-342 | the timeout is the digits' value up to INT_MAX; "4294967296" stores 0, "4294967295" stores -1 and "2147483648" stores INT_MIN |
| JobParse.AllValidSnoc | A3/parse.c:318-352 | appending a line keeps a file valid exactly when that line is valid, and appends its job |
| JobParse.ParseLinesOk | A3/parse.c:318-352 | a file succeeds exactly when all its data lines are valid, and yields their jobs in order; comment and blank lines add nothing |
| JobParse.ParseLinesErr | A3/parse.c:315-352 | a failing file fails at the 1-based number of its first invalid data line, comment and blank lines counted |
| JobParse.ReadJobFiles | A3/parse.c:308-358 | the loop over files and lines yields exactly `ParseFiles`: all jobs in file order, or exit 3 naming the first bad line and its file |
| JobParse.ReadJobFile | A3/parse.c:315-352 | the loop over one file's lines yields exactly `ParseLines` of that file's lines |
| JobParse.ParseLinesExtendErr | A3/parse.c:329-345 | lines after the first invalid one do not change the outcome |
| JobParse.ParseFilesErrPrefix | A3/parse.c:313-354 | files after the first failing one do not change the outcome |
| JobParse.EnabledIndices | A3/parse.c:368-387 | the indices listed are exactly the enabled jobs', increasing |
| JobParse.VerbosePrintSpec | A3/parse.c:368-387 | the verbose table has one line per enabled job, in job order, numbered by the job's 1-based position among all jobs |
| PipeRegistry.Ins | A3/parse.c:465-472 | entry i names job i's input pipe exactly when its input starts with '@', else NULL |
| PipeRegistry.Outs | A3/parse.c:474-479 | entry i names job i's output pipe exactly when its output starts with '@', else NULL |
| PipeRegistry.RefsUpToMembers | A3/parse.c:415-430 | the references of the first n jobs are exactly their input and output pipe names |
| PipeRegistry.RefsMembers | A3/parse.c:415-430 | the collected list holds exactly the referenced pipe names |
| PipeRegistry.FirstIndex | A3/parse.c:433-453 | the first occurrence of a name: it is there and not before |
| PipeRegistry.FirstIndexPrefix | A3/parse.c:433-453 | the first occurrence within a prefix is the first occurrence overall |
| PipeRegistry.DedupSpec | A3/parse.c:433-453 | the de-duplicated list has the same members, no duplicates, in order of first occurrence |
| PipeRegistry.GetPipes | A3/parse.c:409-456 | `get_pipes` returns the distinct references in order of first reference |
| PipeRegistry.CollectRefs | A3/parse.c:415-430 | the first loop collects every reference, job by job, input before output |
| PipeRegistry.DedupInPlace | A3/parse.c:433-453 | the second loop, erasing later copies in place, yields the de-duplicated list |
| PipeRegistry.EraseName | A3/parse.c:442-450 | every entry equal to the name becomes NULL and nothing else changes |
| PipeRegistry.GetPipesSpec | A3/parse.c:409-456 | every referenced pipe is listed exactly once, and nothing else |
| PipeRegistry.CountRefsZero | A3/parse.c:557-568 | a count of 0 means no entry names the pipe |
| PipeRegistry.CountRefsOne | A3/parse.c:557-568 | a count of 1 means the one entry found is the only one |
| PipeRegistry.CountRefsUnique | A3/parse.c:557-568 | a name held by exactly one entry counts 1 |
| PipeRegistry.SelfPipeIsValid | A3/parse.c:552-575 | a job reading and writing a pipe nobody else uses makes that pipe valid |
| PipeCheck.DisableJobs | A3/parse.c:489-498 | every job taking from or sending to the name is disabled; nothing else changes |
| PipeCheck.MakeInOutArrs | A3/parse.c:465-481 | the loop builds exactly the input-pipe and output-pipe arrays |
| PipeCheck.PipesAreNamed | A3/parse.c:409-456 | every listed pipe name starts with '@' (so the message may skip its first character) |
| PipeCheck.MarkInvalid | A3/parse.c:552-576 | the counting pass keeps the number of jobs |
| PipeCheck.CountUsers | A3/parse.c:553-568 | the counts are the numbers of readers and of writers of the name |
| PipeCheck.LastIndex | A3/parse.c:515-528 | the index found holds the name and no later entry does (the last match wins) |
| PipeCheck.CascadeStep | A3/parse.c:529-533 | one cascade step keeps the number of jobs |
| PipeCheck.Cascade | A3/parse.c:506-535 | the cascade keeps the number of jobs |
| PipeCheck.FindLinks | A3/parse.c:515-528 | the inner loop finds the last reader and the last writer of the pipe |
| PipeCheck.CheckCascade | A3/parse.c:506-535 | the jobs' enabled flags become the single-pass cascade's; nothing else changes |
| PipeCheck.ValidListLinkable | A3/parse.c:569-578 | every pipe left after counting has a reader and a writer, so the cascade's indices are defined |
| PipeCheck.PipeCheckResult | A3/parse.c:541-583 | `check_pipes` keeps the number of jobs |
| PipeCheck.CheckPipes | A3/parse.c:541-583 | the new job list is the counting pass followed by the cascade, and the log lists each invalid pipe |
| PipeCheck.CountingPass | A3/parse.c:552-576 | users of invalid pipes are disabled, one message per invalid pipe, invalid pipes become NULL |
| PipeCheck.CountPipe | A3/parse.c:553-575 | one more pipe counted: the log, the disabled jobs and the pipe list advance by exactly that pipe's verdict |
| PipeCheck.PassSnoc | A3/parse.c:570-575 | an invalid pipe adds its message, disables its users and becomes NULL; a valid one changes nothing |
| PipeCheck.OpenErr | A3/parse.c:147-178 | a failed open disables the job and reports it; a successful one stores the descriptor in the matching slot; nothing else changes |
| PipeCheck.OpenFiles | A3/parse.c:595-604 | the open loop leaves every job as `OpenJob` opens it and logs the failures in job order |
| PipeCheck.OpenAll | A3/parse.c:595-604 | the open loop keeps the number of jobs |
| PipeCheck.CountRunnable | A3/parse.c:609-614 | the count is the number of enabled jobs |
| PipeCheck.CheckJobs | A3/parse.c:593-626 | opens, then `check_pipes`; exit 4 with "no runnable jobs" exactly when no job is left enabled |
| PipeCheckFacts.CascadeOnlyClears | A3/parse.c:529-533 | the cascade never enables a job |
| PipeCheckFacts.CascadeKeepsUnpiped | A3/parse.c:506-535 | a job using no pipe keeps its flag through the cascade |
| PipeCheckFacts.CascadeAllEnabled | A3/parse.c:506-535 | when every job is enabled the cascade changes nothing |
| PipeCheckFacts.CascadeStepLinks | A3/parse.c:529-533 | after a pipe's step its reader and writer agree, enabled exactly when both were |
| PipeCheckFacts.MarkInvalidSpec | A3/parse.c:552-576 | the counting pass disables exactly the users of invalid pipes and changes nothing else |
| PipeCheckFacts.TouchesInvalidSnoc | A3/parse.c:552-576 | a job touches an invalid pipe of a longer list exactly when it touched one before or uses the new, invalid one |
| PipeCheckFacts.JobPipesListed | A3/parse.c:409-456 | every pipe a job uses is in the pipe list |
| PipeCheckFacts.PipeCheckSpec | A3/parse.c:541-583 | `check_pipes` only clears enabled flags; a user of an invalid pipe ends disabled; a job with no pipe keeps its flag |
| PipeCheckFacts.AllValidAllRun | A3/parse.c:541-583 | all jobs enabled and all pipes valid: nothing is disabled |
| PipeCheckFacts.OpenJobSpec | A3/parse.c:595-604 | a job is disabled by the opens exactly when a file it needs fails to open, with one message per failure |
| PipeCheckFacts.OpenFailureDisables | A3/parse.c:593-606 | a job whose file fails to open does not run |
| PipeCheckFacts.UnpipedJobUnaffected | A3/parse.c:593-606 | a job with no pipe whose files open keeps its flag, whatever the other jobs do |
| PipeCheckFacts.OpenChainPipes | A3/parse.c:409-481 | the two-job chain's pipe arrays and pipe list |
| PipeCheckFacts.DedupTriple | A3/parse.c:433-453 | de-duplicating "@a", "@a", "@b" keeps "@a" then "@b" |
| PipeCheckFacts.OpenChainCounts | A3/parse.c:552-568 | in the two-job chain, "@a" is valid and "@b" (no reader) is not |
| PipeCheckFacts.ChainMarks | A3/parse.c:552-576 | the counting pass over the two-job chain disables only the writer of "@b" and keeps only "@a" in the list |
| PipeCheckFacts.ChainWithoutReader | A3/parse.c:541-583 | "@b" is reported, and both jobs end disabled, through the cascade over "@a" |
| PipeCheckFacts.ChainLog | A3/parse.c:570-572 | in the two-job chain only "@b" is reported, without its '@' |
| PipeCheckFacts.ChainCascade | A3/parse.c:541-583 | in the two-job chain both jobs end disabled: the writer of "@b" by the count, the writer of "@a" by the cascade |
| PipeCheckFacts.BrokenChainPipes | A3/parse.c:409-481 | the three-job chain's pipe arrays and pipe list |
| PipeCheckFacts.BrokenChainRefs | A3/parse.c:415-430 | the three-job chain references "@a" twice, then "@b" twice |
| PipeCheckFacts.DedupPairs | A3/parse.c:433-453 | de-duplicating two pairs keeps one of each, in order |
| PipeCheckFacts.BrokenChainCounts | A3/parse.c:552-568 | both pipes of the three-job chain are valid |
| PipeCheckFacts.CascadeNotClosed | A3/parse.c:506-535 | the single pass leaves the first job enabled although its only reader is disabled |
| Launcher.WirePipe | A3/running.c:62-79 | wiring a pipe changes only the job's descriptor slots |
| Launcher.WireJob | A3/running.c:54-80 | wiring several pipes changes only the job's descriptor slots |
| Launcher.Succeeded | A3/running.c:54-59 | the number of `pipe()` calls that succeed before the first failure |
| Launcher.Wired | A3/running.c:43-84 | `create_pipes` keeps the number of jobs |
| Launcher.WireAll | A3/running.c:62-79 | every job using the pipe gets the matching end; nothing else changes |
| Launcher.CreatePipes | A3/running.c:43-84 | the jobs end wired for every pipe created; a failing `pipe()` exits with -1 |
| Launcher.PipeLoop | A3/running.c:54-80 | the loop counts the successful calls and wires each job for those pipes |
| Launcher.SucceededAt | A3/running.c:54-59 | the successful-call count is the index of the first failure |
| Launcher.NextIndex | A3/running.c:54-80 | how the first index of a name changes as the pipe list grows |
| Launcher.IndexStep | A3/running.c:54-80 | a job's input and output pipe indices move to the newest pipe exactly when it is the job's pipe |
| Launcher.WireJobSlots | A3/running.c:54-80 | wiring leaves each job with the read end of its input pipe, the write end of its output pipe, and the opposite end of the later of the two to close |
| Launcher.CreatePipesSlots | A3/running.c:43-84 | after success, readers hold read ends, writers hold write ends, and jobs with no pipe are unchanged |
| Launcher.MakeExec | A3/running.c:106-130 | the program name, then the job's arguments, then NULL; `count_args` counts one more than the arguments |
| Launcher.CountArgsAt | A3/running.c:113 | `count_args` stops at the first NULL |
| Launcher.CloseFds | A3/running.c:189-202 | the descriptors closed are exactly `ClosedFds`, job by job |
| Launcher.ClosedFdsSpec | A3/running.c:189-202 | a descriptor is closed exactly when some job holds it in a slot that `close_fds` closes |
| Launcher.ClosedBySpec | A3/running.c:189-202 | a job closes a descriptor exactly when one of its closing slots holds it |
| Launcher.ClosingSnoc | A3/running.c:189-202 | some job of a longer list closes a descriptor exactly when an earlier one does or the new one does |
| Launcher.LinkedPipeClosed | A3/running.c:189-202 | both ends of a pipe with a reader and a writer get closed, unless `pipe()` returned a standard stream |
| Supervisor.PollJobSpec | A3/running.c:145-179 | a poll changes only the timeout and terminated fields. An observed end is reported once. A running job past its timeout gets SIGABRT once. A job whose abort was sent gets SIGKILL. A job with no timeout gets no signal |
| Supervisor.PollJobCount | A3/running.c:145-179 | one poll: the job counts as active afterwards, plus one if its end was observed, as it counted before |
| Supervisor.PolledJobs | A3/running.c:145-180 | a poll keeps the number of jobs |
| Supervisor.MoniterJobs | A3/running.c:142-182 | the new jobs, signals and lines are those `PolledJobs` and `PollActions` give, and the new count is the old one minus the ends observed |
| Supervisor.PollOne | A3/running.c:146-179 | one job is polled and no other job changes |
| Supervisor.ActiveCount | A3/running.c:240 | the number of active jobs is at most the number of jobs |
| Supervisor.PollCountsPrefix | A3/running.c:145-180 | over a prefix, active jobs after the poll plus ends observed equal active jobs before |
| Supervisor.PollKeepsCount | A3/running.c:142-182 | a correct `activeJobs` stays correct through one poll |
| Supervisor.ActiveCountZero | A3/running.c:240 | no active job exactly when every enabled job has ended |
| Supervisor.ActiveCountFresh | A3/running.c:222-237 | before any end is seen, the active jobs are the enabled ones |
| Supervisor.CountAbortsConcat | A3/running.c:162 | the SIGABRT count of two runs adds up |
| Supervisor.CountAbortsNone | A3/running.c:162 | no SIGABRT action means a count of 0 |
| Supervisor.NoAbortAfterAbort | A3/running.c:154-163 | once the abort was sent, no later poll sends it again |
| Supervisor.AbortAtMostOnce | A3/running.c:158-164 | however many polls, a job gets SIGABRT at most once |
| Supervisor.NoTimeoutNoKill | A3/running.c:154-165 | a job without a timeout is never signalled by the polls |
| Supervisor.HangupKillsSpec | A3/running.c:242-249 | on SIGHUP exactly the enabled, unfinished jobs get SIGKILL |
| Supervisor.SendHangupKills | A3/running.c:244-248 | the kill loop sends exactly those signals |
| Supervisor.Launched | A3/running.c:222-237 | the fork loop keeps the number of jobs |
| Supervisor.Launch | A3/running.c:222-237 | every enabled job gets its pid, and `activeJobs` is the number of enabled jobs |
| Supervisor.Round | A3/running.c:240-254 | a round keeps the number of jobs |
| Supervisor.Supervise | A3/running.c:240-254 | the polling loop keeps the number of jobs |
| Supervisor.SuperviseLoop | A3/running.c:240-254 | the loop ends in the state `Supervise` gives |
| Supervisor.OneRound | A3/running.c:241-253 | one round: SIGKILLs on SIGHUP, one more second, one poll |
| Supervisor.SuperviseKeepsCount | A3/running.c:240-254 | `activeJobs` stays the number of enabled, unfinished jobs, so the loop stops exactly when all have ended |
| Supervisor.RunJobs | A3/running.c:213-259 | pipes, forks, parent's closes, then polling; exit 0 once no job is active |
| Supervisor.EnabledKept | A3/running.c:222-237 | equal enabled flags give equal enabled counts |
| Supervisor.RunCountsActive | A3/running.c:213-254 | a run started after the fork loop keeps `activeJobs` exact throughout |
| UnjumbleArgs.LetterCount | A1/unjumble.c:104-118 | the letter count is at most the length |
| UnjumbleArgs.LetterCountAll | A1/unjumble.c:104-118 | the count equals the length exactly when every character is a letter |
| UnjumbleArgs.AlphaCheckSpec | A1/unjumble.c:104-118 | `alpha_check` is 1 exactly when every character is a letter, else -1 |
| UnjumbleArgs.ScanSpecFacts | A1/unjumble.c:242-289 | up to any point the loop can reach, the scan has failed exactly when an unknown option or a `-include` followed by anything but one letter came before; otherwise it counted every specifier and `-include`, and the slots hold the last specifier and letter seen |
| UnjumbleArgs.IsSpecRejects | A1/unjumble.c:242-289 | for every argv on which `is_spec` does not read past the end, it returns 1 exactly for a repeated specifier, a repeated `-include`, a `-include` followed by anything but one letter, or another dashed argument, and 0 otherwise |
| UnjumbleArgs.IsSpecSlots | A1/unjumble.c:242-289 | on success, the slots hold the specifier and the letter exactly when they were given |
| UnjumbleArgs.ReadsPastEnd | A1/unjumble.c:247-265 | `is_spec` reads `argv[argc]` exactly when the last argument is `-include` and no argument before it is rejected (`ReadsPastEndIff`) |
| UnjumbleArgs.ReadsPastEndIff | A1/unjumble.c:247-265 | the loop reaches a trailing `-include` exactly when no earlier argument stops it |
| UnjumbleArgs.EarlyRejectBeforeEnd | A1/unjumble.c:247-270 | `unjumble -include -include` and `unjumble -q -include` stop before the end and fail with 1 |
| UnjumbleArgs.AcceptedScansAll | A1/unjumble.c:247-289 | when `is_spec` accepts, its loop went through every argument |
| UnjumbleArgs.FirstCandidate | A1/unjumble.c:194-234 | the first argument `find_optional` marks, with none marked before it |
| UnjumbleArgs.IsLettersSpec | A1/unjumble.c:194-234 | `is_letters` returns 1 with no candidate, 3 for fewer than three characters, 4 for a non-letter, and 0 only for three or more letters |
| UnjumbleArgs.ArgStructs.IsSpec | A1/unjumble.c:242-289 | for every argv on which it does not read past the end, the loop returns `is_spec`'s code, stopping at the first bad argument, and fills exactly `SpecSlot` and `LetterSlot` |
| UnjumbleArgs.ArgStructs.IsLetters | A1/unjumble.c:194-234 | `LettersCode`, and the letters slot holds the first candidate |
| UnjumbleArgs.ArgStructs.FindOptional | A1/unjumble.c:125-151 | entry i is `Optional`'s verdict on argument i |
| UnjumbleArgs.ArgStructs.IsDict | A1/unjumble.c:159-186 | `DictCode` and `DictSlot` |
| UnjumbleArgs.StaysBad | A1/unjumble.c:247-270 | once `is_spec` has returned 1, later arguments, a trailing `-include` included, do not change the result |
| UnjumbleArgs.IsDictSpec | A1/unjumble.c:159-186 | accepted exactly with no dictionary argument, or one that is last and opens; code 2 names the file |
| UnjumbleWords.AvailConcat | A1/unjumble.c:352-362 | available letters of a concatenation add up |
| UnjumbleWords.AvailNoMark | A1/unjumble.c:353 | the used mark is never an available letter |
| UnjumbleWords.UseLetter | A1/unjumble.c:352-362 | a letter is found exactly when available, and then exactly one copy stops being available |
| UnjumbleWords.NotAvail | A1/unjumble.c:352-362 | removing a letter that is not there changes nothing |
| UnjumbleWords.AvailMark | A1/unjumble.c:358 | marking an unused entry removes exactly one copy of its letter |
| UnjumbleWords.MarkLast | A1/unjumble.c:358 | marking the last entry removes exactly one copy of its letter |
| UnjumbleWords.MarkEarlier | A1/unjumble.c:358 | marking an earlier entry removes one copy from the whole buffer as it did from the prefix |
| UnjumbleWords.LettersSnoc | A1/unjumble.c:350-351 | one more character of the word adds its upper-case letter |
| UnjumbleWords.MatchStep | A1/unjumble.c:350-363 | one letter of the word: it is found exactly when the longer prefix of the word still fits in the letters, and the buffer then holds what is left |
| UnjumbleWords.MatchLetter | A1/unjumble.c:351-362 | after one letter, the buffer is still exactly what is left of the letters, or the matched prefix no longer fits |
| UnjumbleWords.MatchWord | A1/unjumble.c:350-363 | every letter of the word matches exactly when the word, ignoring case, is a sub-multiset of the letters |
| UnjumbleWords.MatchedFits | A1/unjumble.c:366-370 | after the loop, the word matched exactly when its letters fit |
| UnjumbleWords.HasAllLetters | A1/unjumble.c:342-371 | 1 exactly when the word, ignoring case, is a sub-multiset of the letters; -1 otherwise |
| UnjumbleWords.SingleFromSpec | A1/unjumble.c:379-385 | the scan from j finds the letter in either case exactly when it occurs from j on |
| UnjumbleWords.HasSingleLetterSpec | A1/unjumble.c:377-386 | 1 exactly when the word holds the letter in either case, else -1 |
| UnjumbleWords.Marked | A1/unjumble.c:401-415 | the filter keeps the list length |
| UnjumbleWords.Present | A1/unjumble.c:420-429 | the non-NULL entries are at most as many as the entries |
| UnjumbleWords.Somes | A1/unjumble.c:417-429 | wrapping words keeps their number |
| UnjumbleWords.FilterWords | A1/unjumble.c:401-415 | every word that fails a test becomes NULL, in place |
| UnjumbleWords.PresentAll | A1/unjumble.c:420-429 | a list with no NULL is its own words |
| UnjumbleWords.Compact | A1/unjumble.c:417-433 | the words left are copied, in order, to the front of a list of the same size, the rest NULL, and counted |
| UnjumbleWords.SortNormal | A1/unjumble.c:394-434 | the kept words in dictionary order at the front, NULL after, and their number |
| UnjumbleWords.PresentSomes | A1/unjumble.c:420-429 | the non-NULL entries of wrapped words are those words |
| UnjumbleWords.PresentMembers | A1/unjumble.c:420-429 | a word is present exactly when some entry holds it |
| UnjumbleWords.PresentAppend | A1/unjumble.c:420-429 | the present words of a concatenation concatenate |
| UnjumbleWords.PresentNone | A1/unjumble.c:420-429 | an all-NULL list has no words |
| UnjumbleWords.PresentFirst | A1/unjumble.c:487-492 | the first non-NULL entry is the first word |
| UnjumbleWords.KeptSpec | A1/unjumble.c:401-415 | a word is kept exactly when it is in the dictionary, 3 to \|letters\| long, spelt from the letters and holding the `-include` letter |
| UnjumbleWords.KeptAll | A1/unjumble.c:394-434 | when every word passes, the dictionary comes back whole and in order |
| UnjumbleWords.TooLongDropped | A1/unjumble.c:402 | a word longer than the letters is never kept |
| UnjumbleOrder.Lex | A1/unjumble.c:447-455 | the sign of a C string comparison is -1, 0 or 1 |
| UnjumbleOrder.LexZero | A1/unjumble.c:447-455 | the comparison is 0 exactly for equal strings |
| UnjumbleOrder.LexAntisymmetric | A1/unjumble.c:447-455 | swapping the arguments flips the sign |
| UnjumbleOrder.LexTransitive | A1/unjumble.c:447-455 | the comparison is transitive |
| UnjumbleOrder.Lowers | A1/unjumble.c:444 | lower-casing keeps the length |
| UnjumbleOrder.CmpAlphaSpec | A1/unjumble.c:443-458 | `cmp_alpha` is 0 only for identical words, antisymmetric, and follows `strcasecmp` where it decides |
| UnjumbleOrder.CmpAlphaTransitive | A1/unjumble.c:443-458 | `cmp_alpha` is transitive, so qsort's result is well defined |
| UnjumbleOrder.CmpLenSpec | A1/unjumble.c:467-475 | `cmp_len` is 0 only for identical words, antisymmetric, puts longer words first and breaks ties by `cmp_alpha` |
| UnjumbleOrder.CmpLenTransitive | A1/unjumble.c:467-475 | `cmp_len` is transitive |
| UnjumbleOrder.CmpFlip | A1/unjumble.c:532-542 | the chosen comparator is antisymmetric |
| UnjumbleOrder.CmpTransitive | A1/unjumble.c:532-542 | the chosen comparator is transitive |
| UnjumbleOrder.SortWords | A1/unjumble.c:534-538 | the words end sorted by the comparator and are a permutation of what was given |
| UnjumbleOrder.InsertLast | A1/unjumble.c:534-538 | one insertion step extends the sorted prefix and permutes |
| UnjumbleOrder.SwapStep | A1/unjumble.c:534-538 | a swap keeps the insertion invariant |
| UnjumbleOrder.SwapPermutes | A1/unjumble.c:534-538 | a swap permutes |
| UnjumbleOrder.InsertDone | A1/unjumble.c:534-538 | when the inserted word is in place, the prefix is sorted |
| UnjumbleOrder.MaxLen | A1/unjumble.c:484-492 | the greatest word length, attained when there is a word, 0 otherwise |
| UnjumbleOrder.MaxLenSameWords | A1/unjumble.c:484-492 | lists with the same words have the same longest length |
| UnjumbleOrder.Pruned | A1/unjumble.c:494-501 | pruning keeps the list length |
| UnjumbleOrder.PrunedCount | A1/unjumble.c:494-501 | a word shorter than the bound disappears, any other keeps its count |
| UnjumbleOrder.PresentCount | A1/unjumble.c:545-550 | the words printed, counted, are the non-NULL entries |
| UnjumbleOrder.CmpLongest | A1/unjumble.c:482-502 | exactly the longest words survive, each as often as given, first and in `cmp_alpha` order |
| UnjumbleOrder.FirstLength | A1/unjumble.c:487-492 | `maxLength` is the length of the first non-NULL word, 0 with none |
| UnjumbleOrder.PruneShorter | A1/unjumble.c:494-501 | the list becomes the pruned list |
| UnjumbleOrder.LongestFirst | A1/unjumble.c:483-492 | in a list sorted by `cmp_len` the first word is a longest one |
| UnjumbleOrder.LongestCounts | A1/unjumble.c:482-502 | after pruning, the counts are those of the longest words given |
| UnjumbleOrder.PrunedOrder | A1/unjumble.c:482-502 | after pruning, the survivors come first and in `cmp_alpha` order |
| UnjumbleMain.ErrCheck | A1/unjumble.c:69-97 | codes 1-4 stop with that status and their message (the dictionary named for code 2); other codes carry on |
| UnjumbleMain.Unjumble | A1/unjumble.c:509-555 | the first failing check's code, and exactly `err_check`'s message for it (naming the last argument as the dictionary for code 2); otherwise status 10 exactly when no word is kept, else 0, with the kept words listed as the specifier asks |
| UnjumbleMain.CheckArgs | A1/unjumble.c:513-521 | the checks in order give the first failing code; code 2 records the last argument as the dictionary; on success the slots for letters, letter and specifier |
| UnjumbleMain.ListWords | A1/unjumble.c:531-550 | no specifier: dictionary order. `-alpha`/`-len`: a permutation in comparator order. `-longest`: the longest words only, in `cmp_alpha` order |
| UnjumbleMain.SortedOutput | A1/unjumble.c:534-550 | printing a sorted permutation prints the words given, in order |
| UnjumbleMain.PrefixShape | A1/unjumble.c:541-550 | when the non-NULL entries come first, the printed words are those entries in order |
| Common.IntegrationJob.constructor | A4/common.h:7-14 | a job whose fields are still unset, with the verbose flag given |
| Common.WhitespaceFromSpec | A4/common.c:10-21 | the scan from i is 0 or 1, and 1 exactly when a later character is whitespace |
| Common.ContainsWhitespaceSpec | A4/common.c:10-21 | `contains_whitespace` is 0 or 1, and 1 exactly when some character is whitespace |
| Common.ContainsWhitespaceEmpty | A4/common.c:10-21 | the empty string has no whitespace |
| Common.ContainsWhitespaceConcat | A4/common.c:10-21 | a concatenation has whitespace exactly when a part has |
| IntClient.CommandLine | A4/intclient.c:72-112 | usage error exactly for argc outside 2-4, a misplaced "-v" or a lone "-v"; an unopenable job file exactly when the job-file argument (argv[2] without "-v", argv[3] with it) is present and will not open, so a fourth argument without "-v" is ignored; otherwise the verbose flag, port and job file |
| IntClient.CheckCommandLine | A4/intclient.c:72-112 | the loop gives the status and message of `CommandLine`, and a fresh client record exactly on success |
| IntClient.OpenJobFile | A4/intclient.c:40-54 | on success the client records the file and reads from it |
| IntClient.Fields | A4/intclient.c:183-184 | the fields are the strings before the NULL |
| IntClient.CheckSyntax | A4/intclient.c:181-231 | 0 exactly when `SyntaxOk` holds, with the job filled in; otherwise 1 and "syntax error on line N" |
| IntClient.ScanFields | A4/intclient.c:195-227 | the conversions and the round trip, once the five fields are non-empty |
| IntClient.SyntaxOkIff | A4/intclient.c:181-231 | a line passes exactly with five non-empty fields, both bounds converted, and segments and threads each the `%d` rendering of a 32-bit int |
| IntClient.CheckParameters | A4/intclient.c:256-283 | 0 with no message exactly when there is no whitespace, upper > lower, segments > 0, threads > 0 and threads divides segments; else 1 and the first test's message |
| IntClient.ParametersAccepted | A4/intclient.c:256-283 | the same condition in other words: no whitespace, rising bounds, 0 < threads ≤ segments, and threads divides segments |
| IntClient.ConstructFunRequest | A4/intclient.c:293-297 | the request is the C string "GET /validate/" + integrand + " HTTP/1.1\r\n\r\n", and its returned length is its true length |
| IntClient.FunRequestRoundTrip | A4/intclient.c:293-297 | the request parses back to the integrand, and no other request does |
| IntServer.AlphaFromSpec | A4/intserver.c:52-61 | the scan from i is 0 or 1, and 1 exactly when a later character is a letter |
| IntServer.AlphaCheckSpec | A4/intserver.c:52-61 | `alpha_check` is 1 exactly when some character is a letter, else 0 |
| IntServer.ServerInfo.constructor | A4/intserver.c:76 | a server record with no port and no thread limit |
| IntServer.CheckUsage | A4/intserver.c:70-105 | status 0 exactly for a valid command line; a usage error otherwise; on success a fresh record with the port text and, when given, `atoi` of maxthreads |
| IntServer.PortNumbersAccepted | A4/intserver.c:79-81 | every port 0-65535 written in decimal passes |
| IntServer.PortTextRejected | A4/intserver.c:80-81 | a port with a letter or whitespace anywhere fails |
| IntServer.MaxThreadsIff | A4/intserver.c:90-102 | maxthreads passes exactly when `atoi` gives a positive int; no number fails; any positive int in decimal passes |
| IntServer.CheckValidity | A4/intserver.c:223-263 | 0 exactly for a valid request (fields convert, no whitespace, bounds do not fall, counts non-negative, threads divide segments), with the job filled in. The remainder's undefined zero divisor is a precondition |
| IntServer.CheckRequestType | A4/intserver.c:469-517 | 0 exactly for a bad request, 1 exactly for an incomplete one, 2 exactly for a GET validate whose integrand compiles, 3 exactly for a GET integrate; else 4 |
| IntServer.CheckFunction | A4/intserver.c:197-211 | 1 exactly when the integrand compiles, else 0 |
| IntAgreement.ClientJobsPassServer | A4/intclient.c:256-283 | a job the client accepts, sent in `%d`, passes the server's `check_validity`, and the server's remainder is defined |
| IntAgreement.EqualBoundsServerOnly | A4/intserver.c:245-252 | equal bounds pass the server but fail the client |
| IntAgreement.ZeroSegmentsServerOnly | A4/intserver.c:245-252 | zero segments pass the server but fail the client |

## Left out

- I/O beyond the outcomes listed above is not modelled:
  - `read_line`, `split_by_commas`, `fopen`/`open`, `printf` formatting of `%lf`;
  - `redirect`/`dup2`, `execvp` and `/dev/null`;
  - `sleep`;
  - the SIGHUP handler's installation.

  What these return is a parameter, or the action is recorded as a value.
- Memory is not modelled: malloc, free, realloc and leaks. Two memory errors in the integration server lie outside the model for that reason:
  - `check_usage` allocates `strlen(argv[1] + 1)` bytes, two short, for the port copy (A4/intserver.c:85);
  - `check_validity` frees the argument array that its caller frees again on the failure path.
- Floating point is not modelled:
  - the bounds are `real`, and what `%lf` reads is a parameter;
  - `integrate`, `compute_area` and the thread workers of the server are left out.
- HTTP, sockets and threads are left out:
  - the client's connection and its job-by-job exchange with the server, including the skipping of comment and empty lines and the line counting;
  - the server's request loop, `parse_int_request`, `get_str_args`, the verbose header scan, the response texts and the `maxthreads` limit's use.
- `qsort` is not modelled as glibc's algorithm. `UnjumbleOrder.SortWords` is an insertion sort with the same contract: sorted by the comparator, and a permutation. qsort gives no stability guarantee, and the comparators tie only on identical strings, so the result is the same.
- `strcasecmp` and `strcmp` are modelled by their sign over the C locale, which is all `cmp_alpha` uses.
- `get_words`, `count_words` and the default dictionary path are left out; the dictionary's words are a parameter.
- IntClient.CheckSyntax, IntServer.CheckValidity: after a syntax or validity error the job fields are left unspecified, because the caller discards the job.
- IntServer.CheckUsage: `maxThreads` when maxthreads is absent is left unspecified. The source leaves it uninitialised and never reads it.
- Supervisor.RunJobs: stops when the observed polling rounds run out, and returns no exit then. The source's loop may poll forever.
- Launcher.CreatePipes: the exit status -1 is kept as -1. The process would see 255.
- Supervisor.Supervise, Supervisor.SuperviseLoop, Supervisor.RunJobs: each round's SIGHUP flag is a free input. In the source `receivedSig` is set by the handler and never cleared (A3/running.c:32, 242), so once one round sees it every later round does; the model also allows flag sequences that turn off again.

Undefined behaviour in the source that the model excludes by a precondition:

- UnjumbleArgs.ReadsPastEnd: when the last argument is `-include` and no earlier argument is rejected, `is_spec` passes `argv[argc]` (NULL) to `strlen` (A1/unjumble.c:257-260). `SpecCode`, `ArgStructs.IsSpec` and `UnjumbleMain.WellFormed` exclude exactly this case; a trailing `-include` after a rejected argument is modelled.
- UnjumbleArgs.SingleCharsKnown: `find_optional` sets no entry for a one-character argument other than the `-include` letter (A1/unjumble.c:125-151), and `is_letters` then reads that uninitialised entry. `ArgStructs.IsLetters` and `UnjumbleMain.WellFormed` require that no such argument is present.
- IntServer.CheckRequestType: when the address has no '/' after the first, `split_by_char` leaves `requestPars[1]` or `requestPars[2]` NULL, and `strcmp` or `check_function` reads it (A4/intserver.c:494-506). The function requires enough parts.
- IntServer.CheckValidity: when the thread count is 0 and every earlier test passes, `check_validity` computes `segments % threads` (A4/intserver.c:257-259), a division by zero. The method requires a nonzero thread count whenever the remainder is reached.
- IntClient.ConstructFunRequest, IntClient.FunRequestRoundTrip: `construct_fun_request` writes the request with `sprintf` into `char funReq[BUFSIZE]`, with BUFSIZE 10000, and checks no length (A4/intclient.c:295, 440-441). An integrand of 9973 characters or more overflows the buffer. Both require that the request fits.
- JobParse.VerbosePrint: `verbose_print` also runs `count_args` over a job's `opArgs` (A3/parse.c:378), which has no NULL terminator (see MakeExec below). The model prints the extra arguments as they were parsed.
- Launcher.MakeExec: `count_args` scans a job's `opArgs` for a NULL that `add_op_args` never stores (A3/parse.c:272-281, A3/running.c:113), so it reads past the allocation. The model counts the extra arguments as they were parsed.
