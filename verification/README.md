# A verified model of the Valve CI gateway's control code

The gateway of the Valve graphics CI farm boots test machines, watches their consoles and decides
what to do next. This project models, in Dafny, the parts of it whose correctness is not visible in
any single function, and proves what they promise over all inputs, all runs and all interleavings:

- **The job loop** (`Execution`, `JobTimeouts`, `PduPorts`): `execute_job` boots a machine against a
  clock, retry budgets, a power port that other threads replace, and a console thread that does as it
  likes. Proved: it ends, how often it boots, when the machine is powered, and how long it rests between
  a power cut and a boot.
- **The console** (`JobConsoles`, `LineCutting`, `ConsolePatterns`, `Watchdogs`, `SaladConsole`): a
  state protocol between two threads, and byte streams cut anywhere that turn into lines, matches, a
  job status and watchdog times.
- **Qualification** (`Qualification`): the training that decides whether a machine is ready.
- **Framed messages** (`Messages`): length-prefixed frames over partial reads.
- **Traces** (`CommitFrontier`, `TracePacking`, `JunitReport`): the first accessible commits, the
  packing of traces under a size limit, and a report that must agree with the exit code.
- **Registry and leases** (`MachineNames`, `MachineRegistry`, `MacAddresses`, `DhcpHosts`): indexes and
  a text file that must agree with simple maps.
- **Power hardware** (`VirtualPdu`, `BootOnAc`): a bit-packed protocol that refines a map, and a
  debouncer over a wrapping clock.

Every module is one file; `dafny verify dfyconfig.toml` checks them all. Code that changes objects in
place is a class or a method with loops, proved against a function, and the theorems are about that
function.

## What the proofs found

The model follows the code. Where the code does not keep a promise that its design or its comments
suggest, the exact condition under which it does is proved.

- The console thread can stop or reset a watchdog between the end of polling and the listing of the
  expired timeouts. Unless the machine also asked for a reboot, that boot then costs no retry. The bound
  on boots is 1 + retries + such boots (`ExecuteJob`), only watchdogs can cause it (`OnlyWatchdogsRace`),
  without it the bound is 1 + retries (`BootsWithinRetries`), and with it a run without retries can boot
  any number of times (`RaceHappens`).
- Loading a machine's configuration, which a sync of the database does to every machine even in the
  middle of a job, replaces its port by a new object whose `last_shutdown` is the time of its making.
  Every power-up still rests `min_off_time` since the call of every earlier cut, and since the cut itself
  unless the port was replaced while that cut was on its way to the hardware (`ReachedIsSpaced`,
  `ExecuteJob`). In that case the cut is noted on an object that nobody uses any more:
  `TooSoonExactly` says exactly when the next power-up can then come too soon, and `PoweredUpTooSoon`
  gives runs in which it does.
- `JobConsole.machine_unfit_for_service` is the pattern rather than whether it matched, so a machine
  loses its service mark whenever such a pattern is configured and the job is torn down (`TearDown`).
- Only the start deployment's artifacts are cached, so a continue boot can be served neither a kernel nor
  an initramfs (`ArtifactsServed` says exactly when, `NothingServed` that it happens).
- `Message.recv` advances its view by the running total. It works if and only if the bytes come in at
  most two reads (`RecvExact`); a third read is refused rather than misplaced. The connection is then
  inside a frame (`RefusalIsMidFrame`), and a caller that goes on reading can get a payload that nobody
  sent (`MisreadAfterRefusal`).
- A queried commit outside HEAD's history can hide queried commits inside it: one that is newer than HEAD
  hides them all (`NewerCommitHidesAll`), one on a side branch those below the fork (`SideBranchHides`).
  `SomethingIsReturned` says exactly when anything is returned.
- A MAC address followed by a newline is accepted and makes any hosts file unreadable, after which every
  call is refused (`NewlineMacRuinsFile`, and `AddExactly` for the exact condition).
- A boot-loop template that cannot be loaded blocks training until somebody marks the machine
  (`StuckForGood`, `StuckByBrokenTemplate`). A registration template that cannot be loaded while the
  trainer is idle has the effect of a passed registration, for ever (`BrokenPassesForPassed`,
  `NeverToldApart`), so a machine can be qualified without any; `RegistrationSkipped` says exactly when.
- The counters of the whole JUnit file leave out the executions (`GenerateJunit`, `ReportResults`).
- Client version 0 is falsy and behaves exactly as no client (`VersionZeroIsNoClient`): the branch that
  would log the end of its session is unreachable, and only version 1 is sent one (`SessionEndAtMostOnce`).
- The comment in the virtual PDU's protocol gives ports 0 to 1023; the masks give eleven bits
  (`DecodeExactly`), and bit 13 is the shutdown flag although the comment calls it reserved.
- Two machines with the same base name and the same first-seen time get the same full name (`SameName`).

## Model

| member | source | states |
|---|---|---|
| `Execution.Executor.ExecuteJob` | executor/server/src/valve_gfx_ci/executor/server/executor.py:679-799 | Whatever the other threads do, replacing the machine's port included, the whole run ends; it boots at most 1 + (unused retries of boot_cycle, console_activity, first_console_activity and the watchdogs) + (boots that nothing was charged for because a watchdog expiry vanished); the commands that reached the outlet are exactly one OFF, if it was not off, then ON, OFF per boot, so the machine is powered only during its boots and is off at the end; every OFF-to-ON write came `min_off_time` or more after every earlier real cut, or after the replacement of the port that overtook that cut, hence fully so if none was overtaken; the run goes on after every boot unless the job was done, stopped or cancelled before the charges, a charge exceeded its limit, or the overall timeout, which runs since the start, had expired, and ends with the first boot of which one of these is true; it boots not at all only if caching raised or one of these was so beforehand; every boot started afresh, ran the right deployment with the right timeouts armed, and took over the retries and the overall clock that the one before left; the start artifacts, and only they, were added to the cache; a tear-down takes the service mark away whenever an unfit pattern is configured; the client's session end was sent at most once, and was sent if a version-1 job was torn down |
| `Execution.Executor.RunPhases` | executor/server/src/valve_gfx_ci/executor/server/executor.py:679-799 | The same bounds for set-up, boot loop and tear-down in order; a phase that raises ends the run |
| `Execution.Executor.SetUpAndBoot` | executor/server/src/valve_gfx_ci/executor/server/executor.py:680-766 | The bounds of the run for set-up and boot loop: retries, commands, deployments and cache |
| `Execution.Executor.RunJob` | executor/server/src/valve_gfx_ci/executor/server/executor.py:634-643 | The cut of power at the end of `session_init`, then the run: the outlet is OFF at the end, if the power commands themselves succeed and the machine keeps its outlet, and the bounds of the run hold |
| `Execution.Executor.SetUp` | executor/server/src/valve_gfx_ci/executor/server/executor.py:680-689 | The overall clock runs since the call, the set-up one does not run any more, no retry is spent, and the cache is the old one with the start kernel and initramfs |
| `Execution.Executor.BootLoop` | executor/server/src/valve_gfx_ci/executor/server/executor.py:692-766 | Ends, by the time left on the overall deadline; boots bounded by retries and races; the power commands are those of that many boots; its last boot is the first that ends the run, and it boots not at all only if the run was over from the start; it leaves only when the console is done, the user asked, or the overall timeout expired |
| `Execution.Executor.BootWhile` | executor/server/src/valve_gfx_ci/executor/server/executor.py:692-766 | The loop: after every boot its condition holds exactly if that boot does not end the run |
| `Execution.Executor.BootAgain` | executor/server/src/valve_gfx_ci/executor/server/executor.py:692-766 | One more boot keeps the account of a run: commands, deployments, and each boot that does not end the run either spent a retry or was raced |
| `Execution.Executor.BootOnce` | executor/server/src/valve_gfx_ci/executor/server/executor.py:697-766 | One turn: afterwards the job is done, stopped or cancelled exactly if it was before the charges or a charge exceeded its limit; a boot that does not end the run lowers the spendable retries, unless it was raced, in which case it leaves them exactly as they were; the overall clock is untouched |
| `Execution.Executor.RunBoot` | executor/server/src/valve_gfx_ci/executor/server/executor.py:697-734 | Power is ON when polling ends, the boot configuration is the deployment's, no retry is spent, and the timeouts were armed as a boot needs |
| `Execution.Executor.StartBoot` | executor/server/src/valve_gfx_ci/executor/server/executor.py:697-720 | Power is ON, the timeouts are armed for the boot that has just started, and only watchdogs have moved since |
| `Execution.Executor.PowerUp` | executor/server/src/valve_gfx_ci/executor/server/executor.py:695-710 | The port reads ON afterwards and only the needed commands reached it; a new boot forgets the activity and the reboot request of the one before; the configuration is published before the power comes on, and is what the cache gives for the deployment |
| `Execution.Executor.PowerOn` | executor/server/src/valve_gfx_ci/executor/server/executor.py:704-710 | Power comes on only once the boot configuration is there |
| `Execution.Executor.PollBoot` | executor/server/src/valve_gfx_ci/executor/server/executor.py:722-734 | Polling ends with the first reading of its condition that finds the console done, a reboot asked for, the user's stop or cancel, or an expiry; at every reading of its condition exactly one of first_console_activity (since the boot) and console_activity (since the activity last seen) is armed; no retry is spent and the overall and boot clocks are untouched |
| `Execution.Executor.PollOnce` | executor/server/src/valve_gfx_ci/executor/server/executor.py:727-734 | One turn of polling takes 0.1 s and keeps exactly one of the two console timeouts armed, since the boot or since the activity seen |
| `Execution.Executor.FinishBoot` | executor/server/src/valve_gfx_ci/executor/server/executor.py:736-766 | The port is OFF; the retries charged are exactly those of the expired timeouts and of a requested reboot; the job is then done, stopped or cancelled exactly if it was when the charges were made or one exceeds its limit; unless the run ends, the budget shrinks if anything was charged, and if nothing was, some expiry had ended the polling and vanished; the boot timeouts are stopped; only an aborting boot can raise |
| `Execution.Executor.ChargeOrEnd` | executor/server/src/valve_gfx_ci/executor/server/executor.py:739-763 | Charges the boot; the job is then done, stopped or cancelled exactly if it was before or a charge exceeds its limit; otherwise the budget shrinks exactly if something was charged and the timeouts of the boot stop |
| `Execution.Executor.TearDown` | executor/server/src/valve_gfx_ci/executor/server/executor.py:768-799 | Skipped exactly when the console is not DUT_DONE or the job was cancelled; otherwise TEAR_DOWN was entered unless it raised; the service mark falls exactly when a pattern is configured and the job was torn down; the wait ends by the tear-down deadline |
| `Execution.Executor.EnterTearDown` | executor/server/src/valve_gfx_ci/executor/server/executor.py:776-785 | The tear-down clock runs, the client had its second to read, and TEAR_DOWN was entered unless the call raised |
| `Execution.Executor.WaitForClient` | executor/server/src/valve_gfx_ci/executor/server/executor.py:787-794 | Ends, by the tear-down deadline at the latest |
| `Execution.Executor.CacheRemoteArtifacts` | executor/server/src/valve_gfx_ci/executor/server/executor.py:593-607 | Both start artifacts, and nothing of the continue deployment, are mapped to their local copies; if caching raises, the kernel is mapped, and the initramfs too if it got that far |
| `Execution.Executor.CacheRemoteArtifact` | executor/server/src/valve_gfx_ci/executor/server/executor.py:574-591 | A local URL is mapped to itself, another one to its place in the local store; a continue URL that differs gets a place of its own, or is mapped to itself if caching raised before |
| `Execution.GoodBootAt` | executor/server/src/valve_gfx_ci/executor/server/executor.py:692-766 | Every boot of a run, not only the last, ran the start deployment if first and the continue one otherwise, with its timeouts armed; only the last one ends the run |
| `Execution.ArtifactsServed` | executor/server/src/valve_gfx_ci/executor/server/executor.py:593-607 | What every boot is served: the first one the local copies of its own kernel and initramfs; a later one each artifact exactly if it is one of these two or was cached by an earlier job, and then that copy; always its deployment's command line |
| `Execution.CopiesAreLocal` | executor/server/src/valve_gfx_ci/executor/server/executor.py:581-588 | Whatever the job caches is served from the local store |
| `Execution.NothingServed` | executor/server/src/valve_gfx_ci/executor/server/executor.py:593-607 | For all deployments with other artifacts than the cached ones there is a run whose continue boot is served neither kernel nor initramfs |
| `Execution.OnlyWatchdogsRace` | executor/server/src/valve_gfx_ci/executor/server/executor.py:726-742 | An expiry of overall, boot_cycle or a console timeout that ended the polling is always charged |
| `Execution.BootsWithinRetries` | executor/server/src/valve_gfx_ci/executor/server/executor.py:692-766 | Every list of boots that follow each other by the rules of the loop has at most 1 + (retries of the first) + (raced boots) of them, hence 1 + retries when no watchdog moves between the end of polling and the listing |
| `Execution.BootIsPaid` | executor/server/src/valve_gfx_ci/executor/server/executor.py:739-766 | Any boot after which the loop may go on leaves fewer retries to spend, unless it was raced, in which case it leaves exactly as many |
| `Execution.WhyBootAgain` | executor/server/src/valve_gfx_ci/executor/server/executor.py:722-754 | A boot after which the job is not done, stopped or cancelled was ended by an expiry or by a requested reboot |
| `Execution.SpentByBoots` | executor/server/src/valve_gfx_ci/executor/server/executor.py:692-766 | Along any such list every boot but the last was paid for or raced |
| `Execution.SomeLuckyBoot` | executor/server/src/valve_gfx_ci/executor/server/executor.py:722-754 | A boot as `execute_job` makes them, armed, polled and charged by its rules, whose watchdog expires and is stopped by a late line before the listing |
| `Execution.RaceHappens` | executor/server/src/valve_gfx_ci/executor/server/executor.py:692-766 | For every n there is a run of n boots, each following the one before by the rules of the loop, that has no retry to spend and whose boots are all raced: the races in the bound are needed |
| `JobTimeouts.BudgetUpdate` | executor/server/src/valve_gfx_ci/executor/server/job.py:89-93 | Changing one timeout changes the sum of unused retries by that timeout's change |
| `JobTimeouts.GrantsItsRetries` | executor/server/src/valve_gfx_ci/executor/server/job.py:89-93 | A timeout grants exactly as many retries as it was given |
| `JobTimeouts.ExpiresWhenDue` | executor/server/src/valve_gfx_ci/executor/server/job.py:65-87 | A running timeout has expired exactly when more than its length has passed; a stopped one never has |
| `JobTimeouts.SpendableIsBudget` | executor/server/src/valve_gfx_ci/executor/server/job.py:137-159 | The overall and tear-down timeouts add nothing to the retries, so boots can only spend the others' |
| `JobTimeouts.Timeouts.RetryExpired` | executor/server/src/valve_gfx_ci/executor/server/executor.py:739-746 | Every expired timeout, and no other, is stopped and charged; abort exactly when one of them had no retry left; otherwise the budget pays for it |
| `JobTimeouts.Timeouts.RetryBootCycle` | executor/server/src/valve_gfx_ci/executor/server/executor.py:748-754 | A requested reboot costs exactly one boot-cycle retry, or aborts |
| `JobTimeouts.Timeouts.ChargeBoot` | executor/server/src/valve_gfx_ci/executor/server/executor.py:739-754 | Both charges together: abort exactly when one exceeds its limit, also when the boot cycle is charged twice; otherwise the budget shrinks exactly if something was charged |
| `JobTimeouts.ChargesExactly` | executor/server/src/valve_gfx_ci/executor/server/executor.py:739-754 | A timeout is charged once for its expiry and boot_cycle once more for a requested reboot; a charged timeout stops, the others are left alone; the run is given up if and only if a charged timeout is then beyond its retries |
| `JobTimeouts.ChargeIsPaid` | executor/server/src/valve_gfx_ci/executor/server/executor.py:739-754 | A charge within its limits comes out of the retries that boots can spend, never of the overall or the infrastructure timeouts' |
| `JobTimeouts.Timeouts.SettleBoot` | executor/server/src/valve_gfx_ci/executor/server/executor.py:739-763 | The charges, the exact abort condition, and the stop of the boot's timeouts otherwise |
| `JobTimeouts.Timeouts.ArmForBoot` | executor/server/src/valve_gfx_ci/executor/server/executor.py:713-720 | boot_cycle and first_console_activity start, console_activity and all watchdogs stop, the rest is left alone |
| `JobTimeouts.Timeouts.StopBootTimeouts` | executor/server/src/valve_gfx_ci/executor/server/executor.py:760-763 | Exactly the three boot timeouts stop, and no retry is lost |
| `PduPorts.PoweredMachine.Set` | executor/server/src/valve_gfx_ci/executor/server/pdu/__init__.py:42-58 | `pdu_port.set` on the object that the machine has at the call, while others replace it at any moment: a command that would change nothing is not sent and keeps `last_shutdown`; otherwise it reaches the hardware once, and the protocol below is kept |
| `PduPorts.PoweredMachine.UpdateConfig` | executor/server/src/valve_gfx_ci/executor/server/mars.py:287-291 | The machine gets a new port object made now, also in the middle of a call, which stays on its own object |
| `PduPorts.PoweredMachine.Meanwhile` | executor/server/src/valve_gfx_ci/executor/server/mars.py:387-396 | Any number of such replacements amount to the latest one |
| `PduPorts.PoweredMachine.Rest` | executor/server/src/valve_gfx_ci/executor/server/pdu/__init__.py:49-53 | A power-up waits until `min_off_time` has passed since the last shutdown that its object knows of |
| `PduPorts.PoweredMachine.Send` | executor/server/src/valve_gfx_ci/executor/server/pdu/__init__.py:55-58 | The command is carried out once and the shutdown is noted on the object that was called, which the machine may no longer have |
| `PduPorts.StepKeeps` | executor/server/src/valve_gfx_ci/executor/server/pdu/__init__.py:42-58 | Every step of a call or a replacement keeps the invariant: the machine's object knows of every finished cut, or was made while that cut was on its way |
| `PduPorts.ReachedByRuns` | executor/server/src/valve_gfx_ci/executor/server/pdu/__init__.py:42-58 | The states that the invariant is about are exactly those that some interleaving of calls and replacements leads to |
| `PduPorts.ReachedIsSpaced` | executor/server/src/valve_gfx_ci/executor/server/pdu/__init__.py:48-58 | In every interleaving each power-up comes `min_off_time` after every earlier cut, counted from the replacement that overtook the cut if one did, and never from before the cut was called; redundant OFF commands do not matter |
| `PduPorts.TooSoonExactly` | executor/server/src/valve_gfx_ci/executor/server/pdu/__init__.py:48-58 | After any interleaving the next power-up can come too soon after an earlier cut if and only if the machine's object was made while that cut was on its way, before its write, and `min_off_time` has not passed anyway |
| `PduPorts.OvertakenCut` | executor/server/src/valve_gfx_ci/executor/server/pdu/__init__.py:55-58 | A cut whose port is replaced between the call and the write leaves the machine with an object that does not know of it |
| `PduPorts.PoweredUpTooSoon` | executor/server/src/valve_gfx_ci/executor/server/pdu/__init__.py:48-58 | For all such times within `min_off_time` there is a run in which the next power-up comes too soon |
| `JobConsoles.JobConsole.SetState` | executor/server/src/valve_gfx_ci/executor/server/executor.py:132-174 | The observable console moves by `Transition`, raises exactly when asked to go back, and stays what its whole history of calls makes it |
| `JobConsoles.JobConsole.Move` | executor/server/src/valve_gfx_ci/executor/server/executor.py:132-174 | The recursive body: a console without client goes on from DUT_DONE to OVER in the same call |
| `JobConsoles.StateReached` | executor/server/src/valve_gfx_ci/executor/server/executor.py:132-174 | Whatever the interleaving, the console is in the highest state asked for, except that without a client it is over as soon as DUT_DONE is asked for, unless more was before; so it is in DUT_DONE only with a client |
| `JobConsoles.EnteredExactly` | executor/server/src/valve_gfx_ci/executor/server/executor.py:132-174 | With a client, the states entered are exactly those asked for when nothing as high had been |
| `JobConsoles.EnteredWithoutClient` | executor/server/src/valve_gfx_ci/executor/server/executor.py:146-149 | Without one, DUT_DONE is entered exactly if it is the first call at or beyond it, together with OVER, and nothing else is entered unasked |
| `JobConsoles.VersionZeroIsNoClient` | executor/server/src/valve_gfx_ci/executor/server/executor.py:148 | A console with a client of version 0 does exactly what one without a client does |
| `JobConsoles.JobConsole.ResetPerBootState` | executor/server/src/valve_gfx_ci/executor/server/executor.py:100-105 | No activity and no reboot request remain from the boot before |
| `JobConsoles.JobConsole.EndJob` | executor/server/src/valve_gfx_ci/executor/server/executor.py:756-758 | After `set_state(DUT_DONE)`, raised or not, the job is done |
| `JobConsoles.JobConsole.ConsoleThread` | executor/server/src/valve_gfx_ci/executor/server/executor.py:125-174 | Any calls by the console thread keep a finished console finished, and never enter TEAR_DOWN |
| `JobConsoles.RunConsistent` | executor/server/src/valve_gfx_ci/executor/server/executor.py:132-174 | For every interleaving of calls the states entered strictly increase and the actions are exactly those of the states entered, each once, in order |
| `JobConsoles.StateNeverDecreases` | executor/server/src/valve_gfx_ci/executor/server/executor.py:132-139 | Along every interleaving the state never goes back and no action is undone |
| `JobConsoles.RunForward` | executor/server/src/valve_gfx_ci/executor/server/executor.py:132-174 | Whatever calls follow, the console is as far as before or further |
| `JobConsoles.ActionsOfForward` | executor/server/src/valve_gfx_ci/executor/server/executor.py:147-174 | Which states make a session-end message or a client close appear, at most once, with the close last |
| `JobConsoles.ActionsExactly` | executor/server/src/valve_gfx_ci/executor/server/executor.py:140-174 | An action was taken if and only if a state that calls for it was entered |
| `JobConsoles.ActionBelongs` | executor/server/src/valve_gfx_ci/executor/server/executor.py:140-174 | Which states these are, for each of the five actions |
| `JobConsoles.SessionEndAtMostOnce` | executor/server/src/valve_gfx_ci/executor/server/executor.py:153-174 | The session-end message goes out exactly when a version-1 client is attached and TEAR_DOWN was entered, at most once, never after the client's socket was closed |
| `LineCutting.CutIsFaithful` | executor/server/src/valve_gfx_ci/executor/server/executor.py:182-197 | Lines plus remainder are the stream, byte for byte |
| `LineCutting.CutShape` | executor/server/src/valve_gfx_ci/executor/server/executor.py:187-197 | Every line holds one newline, at its end; the remainder holds none |
| `LineCutting.CutAppend` | executor/server/src/valve_gfx_ci/executor/server/executor.py:185-197 | Reading on from the remainder gives the same lines as reading the whole stream at once |
| `ConsolePatterns.FindNewline` | executor/server/src/valve_gfx_ci/executor/server/executor.py:188-189 | The first newline from a position on, or none |
| `ConsolePatterns.ConsoleState.ProcessLine` | executor/server/src/valve_gfx_ci/executor/server/job.py:310-323 | The matches of the line are added, and every watchdog's start time stays the one that the whole history of lines and boots gives it |
| `ConsolePatterns.ConsoleState.StopWatchdogs` | executor/server/src/valve_gfx_ci/executor/server/executor.py:718-720 | The same when a boot stops all of them |
| `ConsolePatterns.ConsoleReader.ResetPerBootState` | executor/server/src/valve_gfx_ci/executor/server/executor.py:100-105 | A boot clears the reboot request, in the patterns and in the console, and keeps the unfinished line, the lines processed, the watchdogs and the job status |
| `ConsolePatterns.ConsoleReader.MatchConsolePatterns` | executor/server/src/valve_gfx_ci/executor/server/executor.py:182-204 | The find-and-slice loop does what one byte-at-a-time cut of remainder plus buffer does: the same lines processed, each once and in order, and the same remainder; the watchdogs see these lines and nothing else; a reboot is asked for exactly when its pattern is matched |
| `ConsolePatterns.ReadOn` | executor/server/src/valve_gfx_ci/executor/server/executor.py:187-197 | One turn of that loop against the cut of the stream |
| `ConsolePatterns.OnlyTheStreamMatters` | executor/server/src/valve_gfx_ci/executor/server/executor.py:182-204 | After any buffers and boots: the remainder and the lines processed are the stream's, and all patterns but the reboot request are those that these lines match |
| `ConsolePatterns.ChunkInvariance` | executor/server/src/valve_gfx_ci/executor/server/job.py:340-354 | Two runs over the same output, however cut and rebooted, processed the same lines and have the same job status and remainder |
| `ConsolePatterns.StatusExactly` | executor/server/src/valve_gfx_ci/executor/server/job.py:340-354 | What each status says about the output, by if and only if: INCOMPLETE without a session-end line; then COMPLETE without a success pattern; FAIL when no line matched it; PASS, or WARN when a line matched the warning pattern |
| `ConsolePatterns.WatchdogChunkInvariance` | executor/server/src/valve_gfx_ci/executor/server/job.py:228-249 | However the output is cut and whenever it comes, if the boots stopped the watchdogs after the same lines, the same line started a watchdog, or none did |
| `ConsolePatterns.UntimedIsTexts` | executor/server/src/valve_gfx_ci/executor/server/job.py:228-249 | The lines, and after how many of them each boot came, determine what a watchdog was told, but for the times |
| `ConsolePatterns.StatusNeverGoesBack` | executor/server/src/valve_gfx_ci/executor/server/job.py:340-354 | Along every run, boots included, the status never returns to INCOMPLETE nor back along FAIL, PASS, WARN |
| `Watchdogs.StartTimeIsLatestAccepted` | executor/server/src/valve_gfx_ci/executor/server/job.py:228-249 | A watchdog started at t if and only if its latest accepted start or reset, with no stop or boot since, was at t |
| `Watchdogs.RunningMeansStarted` | executor/server/src/valve_gfx_ci/executor/server/job.py:228-249 | If no line both starts and stops it, a watchdog runs if and only if some start line has neither a boot nor an unreset stop after it |
| `Watchdogs.AmbiguousLineToggles` | executor/server/src/valve_gfx_ci/executor/server/job.py:233-243 | A line that both starts and stops toggles the watchdog, so the condition above is needed |
| `Watchdogs.OnlyTheLinesMatter` | executor/server/src/valve_gfx_ci/executor/server/job.py:228-249 | The lines and boots alone decide which signal started a watchdog; its start time is that signal's time |
| `SaladConsole.SplitIsCut` | salad/src/valve_gfx_ci/salad/console.py:111-117 | Splitting on the regular expression gives the byte-at-a-time lines without terminators, then the remainder |
| `SaladConsole.StripExactly` | salad/src/valve_gfx_ci/salad/console.py:111-117 | Exactly the terminator is removed from a line, with at most one carriage return |
| `SaladConsole.TcpConsoleStream.Recv` | salad/src/valve_gfx_ci/salad/console.py:111-117 | Processes every complete line and keeps the last piece |
| `SaladConsole.SerialConsoleStream.Recv` | salad/src/valve_gfx_ci/salad/console.py:71-85 | Processes the lines of buffer plus input, keeps the remainder, returns the input unchanged |
| `SaladConsole.TcpReadsSerialLines` | salad/src/valve_gfx_ci/salad/console.py:111-117 | However the stream is cut, also between \r and \n, the TCP console yields exactly the serial console's lines, terminators removed |
| `SaladConsole.SamePings` | salad/src/valve_gfx_ci/salad/console.py:95-98 | A line is a ping for the serial console if and only if its stripped form is one for the TCP console |
| `Messages.Socket.RecvInto` | executor/server/src/valve_gfx_ci/executor/server/message.py:67-69 | Fills the view from its offset with the next bytes of the stream; refuses a size larger than the view without reading |
| `Messages.RecvSpec` | executor/server/src/valve_gfx_ci/executor/server/message.py:61-74 | Success yields and consumes exactly `length` bytes, failure consumes fewer |
| `Messages.Recv` | executor/server/src/valve_gfx_ci/executor/server/message.py:61-74 | The loop over the moving view, with the view advanced by the running total, does what `RecvSpec` says |
| `Messages.RecvExact` | executor/server/src/valve_gfx_ci/executor/server/message.py:61-74 | It returns if and only if the bytes come in at most two reads, and then they are the next bytes of the stream; otherwise it raises, never handing out other bytes |
| `Messages.ThirdReadRefused` | executor/server/src/valve_gfx_ci/executor/server/message.py:71-72 | A message that is all there but comes in three pieces is refused |
| `Messages.ValueOfBigEndian` | executor/server/src/valve_gfx_ci/executor/server/message.py:78-94 | Unpacking undoes packing for every number that fits |
| `Messages.PackIsHeader` | executor/server/src/valve_gfx_ci/executor/server/message.py:94 | The four-byte length prefix reads back for every length below 2^32 |
| `Messages.NextMessage` | executor/server/src/valve_gfx_ci/executor/server/message.py:77-79 | Reads one frame: four bytes, then as many as they say |
| `Messages.FirstFrame` | executor/server/src/valve_gfx_ci/executor/server/message.py:77-79 | On a stream that starts with a frame, even one cut short, a successful call yields that frame's payload and leaves the rest |
| `Messages.ReceivedIsPrefix` | executor/server/src/valve_gfx_ci/executor/server/message.py:77-94 | Over any delivery of any frames, the calls before the first failure return the sent payloads in order, without gaps |
| `Messages.MessagesInOrder` | executor/server/src/valve_gfx_ci/executor/server/message.py:77-94 | The same for whole messages under any encoding that decoding undoes |
| `Messages.RefusalIsMidFrame` | executor/server/src/valve_gfx_ci/executor/server/message.py:61-79 | After a refused read the connection is strictly inside a frame, not at a frame boundary |
| `Messages.MisreadAfterRefusal` | executor/server/src/valve_gfx_ci/executor/server/message.py:61-79 | So order holds only up to the first failure: a call after a refusal can return a payload that was never sent |
| `CommitFrontier.FindFirstAccessible` | valvetraces/src/valve_gfx_ci/valvetraces/__init__.py:106-136 | Returns HEAD alone if it was queried, else exactly the queried parents of visible commits |
| `CommitFrontier.FrontierIsAccessible` | valvetraces/src/valve_gfx_ci/valvetraces/__init__.py:106-136 | Everything returned was queried and is in HEAD's history |
| `CommitFrontier.TopmostIsReturned` | valvetraces/src/valve_gfx_ci/valvetraces/__init__.py:106-136 | On an acyclic graph, every queried commit of HEAD's history that is not a proper ancestor of another queried one is returned |
| `CommitFrontier.AncestorHasFewerAncestors` | valvetraces/src/valve_gfx_ci/valvetraces/__init__.py:106-136 | On an acyclic graph the number of ancestors falls strictly towards the past |
| `CommitFrontier.TopmostAboveIsReturned` | valvetraces/src/valve_gfx_ci/valvetraces/__init__.py:121-136 | Above a commit that no queried commit outside HEAD's history hides, the queried commit with the most ancestors is returned |
| `CommitFrontier.SomethingIsReturned` | valvetraces/src/valve_gfx_ci/valvetraces/__init__.py:106-136 | Something is returned if and only if HEAD was queried, or some commit of its history has a queried parent and is not hidden by a queried commit outside of this history |
| `CommitFrontier.AllInHistory` | valvetraces/src/valve_gfx_ci/valvetraces/__init__.py:106-136 | In particular, if the queried commits that exist are all in HEAD's history, something is returned if and only if one exists |
| `CommitFrontier.NewerCommitHidesAll` | valvetraces/src/valve_gfx_ci/valvetraces/__init__.py:121-129 | One way that this condition fails: HEAD is a proper ancestor of a queried commit, and nothing is returned |
| `CommitFrontier.NewerCommitHidesParent` | valvetraces/src/valve_gfx_ci/valvetraces/__init__.py:121-129 | A concrete graph in which HEAD's own queried parent is not returned for that reason |
| `CommitFrontier.SideBranchHides` | valvetraces/src/valve_gfx_ci/valvetraces/__init__.py:121-129 | Another way: HEAD is not hidden, but a queried side branch hides the commit between HEAD and a queried ancestor, and nothing is returned |
| `TracePacking.SortSorts` | valvetraces/src/valve_gfx_ci/valvetraces/__init__.py:1656 | Sorting orders by size and permutes |
| `TracePacking.SmallestUnder` | valvetraces/src/valve_gfx_ci/valvetraces/__init__.py:1653-1661 | The loop stops at the longest prefix of the sorted traces under the limit: the next trace would reach it |
| `TracePacking.TracesUnder` | valvetraces/src/valve_gfx_ci/valvetraces/__init__.py:1648-1661 | The selection is empty or totals strictly under the limit, and, for non-negative sizes, no sub-collection strictly under the limit has more traces |
| `TracePacking.SmallestTotal` | valvetraces/src/valve_gfx_ci/valvetraces/__init__.py:1656-1660 | No m traces are smaller together than the m smallest (exchange argument over multisets) |
| `TracePacking.MostTracesThatFit` | valvetraces/src/valve_gfx_ci/valvetraces/__init__.py:1648-1661 | Any prefix of the sorted traces that could not take the next one is optimal among all sub-collections |
| `Qualification.SergentHartman.GetNextTask` | executor/server/src/valve_gfx_ci/executor/server/executor.py:337-367 | The registration job first, then boot loops; refuses when a report is missing; changes the fields even if the template cannot be loaded |
| `Qualification.SergentHartman.DoReport` | executor/server/src/valve_gfx_ci/executor/server/executor.py:369-392 | The new counters and mark; asks for a delay exactly after a failed registration |
| `Qualification.SergentHartman.RunSession` | executor/server/src/valve_gfx_ci/executor/server/executor.py:610-653 | One session of the executor loop as far as training goes |
| `Qualification.StepAgrees` | executor/server/src/valve_gfx_ci/executor/server/executor.py:337-392 | Every step of the counters follows the simple account, which only keeps the list of jobs of the campaign under way |
| `Qualification.TrainerTellsTheStory` | executor/server/src/valve_gfx_ci/executor/server/executor.py:332-392 | After any history, broken templates included, the counters agree with the account |
| `Qualification.NeverUnreported` | executor/server/src/valve_gfx_ci/executor/server/executor.py:350-355 | `cur_loop` never exceeds the loop count, in any state; the missing-report error comes if and only if a boot-loop template could not be loaded in the campaign under way, so never when every job was reported |
| `Qualification.TaskExactly` | executor/server/src/valve_gfx_ci/executor/server/executor.py:350-367 | After any history the next job is the registration exactly when no campaign is under way, and a boot of the loop exactly when one is and every boot of it was reported |
| `Qualification.StuckForGood` | executor/server/src/valve_gfx_ci/executor/server/executor.py:350-352 | Once a report is missing, no number of sessions changes anything and every next task is refused |
| `Qualification.StuckByBrokenTemplate` | executor/server/src/valve_gfx_ci/executor/server/executor.py:354-367 | After any history, a session leaves the trainer stuck if and only if it was, or a boot-loop template cannot be loaded while training |
| `Qualification.UnderwayIsTold` | executor/server/src/valve_gfx_ci/executor/server/executor.py:337-392 | A campaign that an idle trainer opened on an unmarked machine, and that only reported boots followed, is the account's |
| `Qualification.ToldIsUnderway` | executor/server/src/valve_gfx_ci/executor/server/executor.py:337-392 | Conversely, every campaign of the account that is not blocked was opened like that |
| `Qualification.MarkedOnlyAfterCampaign` | executor/server/src/valve_gfx_ci/executor/server/executor.py:381-390 | After any history, a session leaves the machine marked if and only if it was, or it completes a campaign: a registration that passed or whose template was broken, on an idle trainer, and exactly `boot_loop_counts` reported boots without a break, at least `qualifying_rate` of them PASS |
| `Qualification.RegistrationSkipped` | executor/server/src/valve_gfx_ci/executor/server/executor.py:340-350 | A newly marked machine had either its registration passed or the registration's template broken while the trainer was idle and the machine unmarked, never both: this says exactly when registration is skipped |
| `Qualification.BrokenPassesForPassed` | executor/server/src/valve_gfx_ci/executor/server/executor.py:340-350 | A broken template has the effect of a PASS if and only if the machine is marked, or the trainer is idle or stuck |
| `Qualification.NeverToldApart` | executor/server/src/valve_gfx_ci/executor/server/executor.py:340-350 | From any history that leaves the trainer idle, a broken registration template and a passed registration lead to the same state for ever |
| `Qualification.AnyOpeningQualifies` | executor/server/src/valve_gfx_ci/executor/server/executor.py:337-390 | From any such history with an unmarked machine, either opening and `boot_loop_counts` boots mark the machine if and only if enough of them passed |
| `MachineNames.ComputeIndex` | executor/server/src/valve_gfx_ci/executor/server/mars.py:98-101 | The counting loop gives the rank among the DUTs of the same base name |
| `MachineNames.DecimalRoundTrip` | executor/server/src/valve_gfx_ci/executor/server/mars.py:103 | Decimal digits read back and hold no dash |
| `MachineNames.NameInjective` | executor/server/src/valve_gfx_ci/executor/server/mars.py:103 | A full name determines base name and index, even with dashes in the farm and base names |
| `MachineNames.NameParts` | executor/server/src/valve_gfx_ci/executor/server/mars.py:103 | A name is the farm, the base name and the index, in this order |
| `MachineNames.SameName` | executor/server/src/valve_gfx_ci/executor/server/mars.py:95-103 | Two DUTs share a full name if and only if they share base name and first-seen time |
| `MachineNames.NamesAreUnique` | executor/server/src/valve_gfx_ci/executor/server/mars.py:95-103 | Full names are pairwise distinct across the database if and only if first-seen times are, within every base name |
| `MachineNames.NewcomerRenumbersNobody` | executor/server/src/valve_gfx_ci/executor/server/mars.py:98-101 | Adding a DUT seen no earlier than another leaves that one's index unchanged |
| `MachineNames.NewcomerRenamesNobody` | executor/server/src/valve_gfx_ci/executor/server/mars.py:95-103 | Hence its name, too |
| `MachineNames.IndexesAreOneToN` | executor/server/src/valve_gfx_ci/executor/server/mars.py:98-101 | With distinct first-seen times the indexes of a base name are exactly 1 to n |
| `MachineRegistry.Mars.MachineUpdateOrCreate` | executor/server/src/valve_gfx_ci/executor/server/mars.py:349-359 | A known machine stays the same object with the new entry; an unknown one gets a new object; the database holds the entry |
| `MachineRegistry.Mars.SyncMachines` | executor/server/src/valve_gfx_ci/executor/server/mars.py:387-401 | From any valid state: known machines and database then have the same MACs and each machine uses the current entry; surviving machines are the same objects, not stopped; vanished ones are stopped exactly once |
| `MachineRegistry.Mars.LoadMachines` | executor/server/src/valve_gfx_ci/executor/server/mars.py:390-396 | Every entry of the file gets its machine; nobody is stopped or replaced |
| `MachineRegistry.Mars.RemoveMachines` | executor/server/src/valve_gfx_ci/executor/server/mars.py:398-401 | Exactly the given machines go, each told once to stop |
| `MachineRegistry.Mars.AddOrUpdateMachine` | executor/server/src/valve_gfx_ci/executor/server/mars.py:369-385 | Fails exactly for a new DUT without base name, tags or address, or for an address that is not one, changing nothing; otherwise only that DUT changes, each field to the given value or else its current one, and table and database stay in step |
| `MachineRegistry.Mars.Operate` | executor/server/src/valve_gfx_ci/executor/server/mars.py:349-401 | One operation keeps that account: a surviving MAC keeps its object, a new object was never stopped, and a machine is stopped once, when it goes |
| `MachineRegistry.Mars.OperateAll` | executor/server/src/valve_gfx_ci/executor/server/mars.py:349-401 | After any sequence of syncs and add-or-update calls, table and database have the same MACs and each machine points at the current entry; every machine there ever was, also one that appeared and vanished in between, was stopped exactly once if it is gone, even if its MAC came back under a new object, and never otherwise |
| `MacAddresses.CanonicalForm` | executor/server/src/valve_gfx_ci/executor/server/boots.py:44-56 | Every accepted spelling becomes its six lower-case octets between colons, followed by what a newline at its end becomes |
| `MacAddresses.CaseDoesNotMatter` | executor/server/src/valve_gfx_ci/executor/server/boots.py:44-56 | Spellings that differ in case only are split alike, or both refused |
| `MacAddresses.SameCanonical` | executor/server/src/valve_gfx_ci/executor/server/boots.py:44-56 | Two accepted spellings have the same canonical form if and only if they denote the same address and end alike, as all do that end without a newline |
| `DhcpHosts.ParseDhcpHosts` | executor/server/src/valve_gfx_ci/executor/server/boots.py:65-77 | The accumulating loop parses line by line, skips blanks and comments and refuses a malformed file |
| `DhcpHosts.ReadsLineByLine` | executor/server/src/valve_gfx_ci/executor/server/boots.py:65-77 | Blank lines and comments do not matter, an entry counts, and any other line makes the file malformed |
| `DhcpHosts.IgnoredExactly` | executor/server/src/valve_gfx_ci/executor/server/boots.py:67-70 | A line is skipped if and only if only spaces precede its end or a `#` |
| `DhcpHosts.EntryExactly` | executor/server/src/valve_gfx_ci/executor/server/boots.py:71-75 | A line holds an entry if and only if it is a well-formed one as it is rendered, with spaces around it |
| `DhcpHosts.ParseUndoesRender` | executor/server/src/valve_gfx_ci/executor/server/boots.py:65-77 | Reading back the rendered file gives the hosts, in order, for well-formed fields |
| `DhcpHosts.RoundTripExactly` | executor/server/src/valve_gfx_ci/executor/server/boots.py:65-77 | It does if and only if all fields are well formed |
| `DhcpHosts.LessTotal` | executor/server/src/valve_gfx_ci/executor/server/boots.py:215 | The order on MACs is a strict total order |
| `DhcpHosts.Dnsmasq.AddStaticAddress` | executor/server/src/valve_gfx_ci/executor/server/boots.py:203-222 | Replaces the file by the new one, or raises and leaves it |
| `DhcpHosts.AddKeepsMap` | executor/server/src/valve_gfx_ci/executor/server/boots.py:203-215 | On a file in order, one proper call sets its address, keeps all other entries, and leaves the file sorted with one entry per MAC |
| `DhcpHosts.FileIsLastWriteMap` | executor/server/src/valve_gfx_ci/executor/server/boots.py:203-215 | After any calls, proper or refused, on an empty file, it reads back sorted, one entry per address, as the last-write-wins map, whatever spelling was used |
| `DhcpHosts.AddExactly` | executor/server/src/valve_gfx_ci/executor/server/boots.py:203-215 | An accepted call on a file in order leaves a file that reads back with its entry if and only if the MAC has no trailing newline and the other fields are well formed |
| `MacAddresses.NewlineIsKept` | executor/server/src/valve_gfx_ci/executor/server/boots.py:47-56 | A MAC with a trailing newline is accepted and keeps it in its canonical form |
| `DhcpHosts.NewlineMacRuinsFile` | executor/server/src/valve_gfx_ci/executor/server/boots.py:203-215 | One such call, for every address and on every file in order, succeeds and leaves a file that does not parse, so that every later call is refused |
| `DhcpHosts.RuinedAnywhere` | executor/server/src/valve_gfx_ci/executor/server/boots.py:65-77 | One line that cannot be read makes the whole file unreadable, wherever it is among proper lines |
| `VirtualPdu.DecodeExactly` | ansible/roles/vpdu/files/vpdu.py:153-157 | The server reads back what the driver sent, through the four bytes, if and only if the port is below 2048 |
| `VirtualPdu.Port2048IsPort0` | ansible/roles/vpdu/files/vpdu.py:154-155 | Port 2048 would be read as port 0 with the shutdown bit |
| `VirtualPdu.Server.Handle` | ansible/roles/vpdu/files/vpdu.py:131-200 | The answer and outlets of one request; the shutdown flag is set only by a request that passed the check of the reserved bits |
| `VirtualPdu.Server.Operate` | ansible/roles/vpdu/files/vpdu.py:163-200 | Machines are started and stopped only when the outlet changes |
| `VirtualPdu.RequestsAreConfined` | ansible/roles/vpdu/files/vpdu.py:163-200 | A request changes at most the outlet of its port, and only to turn it on or off; it is answered 0 for a port that does not exist and 1 for one that it operates |
| `VirtualPdu.Driver.Send` | executor/server/src/valve_gfx_ci/executor/server/pdu/drivers/virtual.py:35-64 | Driver composed with server: the request that arrives is the one meant, and it never shuts the server down |
| `VirtualPdu.Driver.SetPortState` | executor/server/src/valve_gfx_ci/executor/server/pdu/drivers/virtual.py:35-49 | The command reaches its outlet and no other, a reboot being off then on; the driver's assertions hold |
| `VirtualPdu.Driver.GetPortState` | executor/server/src/valve_gfx_ci/executor/server/pdu/drivers/virtual.py:51-64 | Reads the outlet's state and changes nothing |
| `VirtualPdu.Driver.CountPorts` | executor/server/src/valve_gfx_ci/executor/server/pdu/drivers/virtual.py:16-18 | The driver learns how many outlets there are, or gets no answer when the count does not fit a byte |
| `VirtualPdu.PduIsMap` | ansible/roles/vpdu/files/vpdu.py:163-200 | After any commands an outlet reads as the last state commanded for it, off at first, and machines started minus stopped is 1 if it is on, else 0; one was started for every power-up from off and for every reboot |
| `BootOnAc.Firmware.Loop` | firmwares/boot_on_AC.ino:70-107 | One turn of `loop()`: the new globals, and whether the button is pressed |
| `BootOnAc.SinceIsReal` | firmwares/boot_on_AC.ino:82-100 | An unsigned 32-bit difference is the real difference modulo 2^32, hence never more |
| `BootOnAc.RemembersRunStart` | firmwares/boot_on_AC.ino:79-84 | The change time remembered is that of the start of the current run of equal samples, up to wrap-around |
| `BootOnAc.DebouncedAfterSteadySamples` | firmwares/boot_on_AC.ino:79-84 | The debounced state takes a value only after more than 20 ms of real time in which every sample had it, across any wrap-arounds |
| `BootOnAc.DebouncedIsSettled` | firmwares/boot_on_AC.ino:79-84 | The debounced state is that of the latest turn that ended more than 20 ms of equal samples, by the samples alone |
| `BootOnAc.RemembersLastPress` | firmwares/boot_on_AC.ino:93-99 | The attempt time remembered is that of the latest release, up to wrap-around |
| `BootOnAc.NoAttemptYet` | firmwares/boot_on_AC.ino:93-99 | Before the first press it is zero |
| `BootOnAc.PressedExactly` | firmwares/boot_on_AC.ino:93-99 | A turn presses the button if and only if the boot is not complete, the machine is off by its samples, and more than 250 ms have passed since the attempt remembered |
| `BootOnAc.CompletedExactly` | firmwares/boot_on_AC.ino:100-102 | A turn completes the boot if and only if the machine is on by its samples and more than 10 s have passed since the attempt remembered |
| `BootOnAc.PressesAreSpaced` | firmwares/boot_on_AC.ino:93-99 | Every press starts more than 250 ms after every earlier release |
| `BootOnAc.NoPressAfterComplete` | firmwares/boot_on_AC.ino:93-104 | Once the boot is complete, no later turn presses the button |
| `JunitReport.Frames` | valvetraces/src/valve_gfx_ci/valvetraces/__init__.py:1146-1193 | One verdict per wanted frame, in order |
| `JunitReport.ExpectedExactly` | valvetraces/src/valve_gfx_ci/valvetraces/__init__.py:1232-1252 | A trace is expected to work if and only if it has applicable reports and all of them say that it works, with more agreement than the minimum |
| `JunitReport.WellExactly` | valvetraces/src/valve_gfx_ci/valvetraces/__init__.py:1146-1256 | An execution adds no failure if and only if, when expected to work, it exited with 0 and made exactly the wanted frames, and the wanted frames that it made were accepted |
| `JunitReport.GenerateSuite` | valvetraces/src/valve_gfx_ci/valvetraces/__init__.py:1584-1624 | The `tests` and `failures` attributes equal the test-case and failure elements made for the suite, each of which is the verdict it stands for |
| `JunitReport.CountFrames` | valvetraces/src/valve_gfx_ci/valvetraces/__init__.py:1546-1552 | Counts the frames and the unacceptable frames of all executions |
| `JunitReport.GenerateJunit` | valvetraces/src/valve_gfx_ci/valvetraces/__init__.py:1572-1629 | Every suite is right; the file-level attributes leave out exactly the executions |
| `JunitReport.IsSuccess` | valvetraces/src/valve_gfx_ci/valvetraces/__init__.py:1636-1645 | Success if and only if no frame was rejected and no execution failed |
| `JunitReport.ReportResults` | valvetraces/src/valve_gfx_ci/valvetraces/__init__.py:1787-1792 | The exit code is 0 if and only if every execution went well in that sense, and if and only if the suites' failures add up to zero; the file-level failure count equals that sum if and only if every execution succeeded |

## Left out

How the model abstracts what it covers:

- Threads: everything beside the executor thread happens in `OtherThreads`, called wherever that thread waits or does I/O; a `set_state` call is atomic, and within a boot the console thread can only raise the reboot request.
- Time: a non-decreasing integer clock in microseconds; a command that reaches the power port takes at least one; the expiry of all timeouts is read at one instant, and so is each reading of the polling condition.
- Execution.Executor.RunJob: its promise that the outlet ends OFF, like that of `ExecuteJob`, takes two things for granted. Power commands succeed; one that raises leaves the outlet as it is. A new configuration gives the machine a port of the same outlet, with any `min_off_time`; if it moved the machine to another outlet during a boot, the first one would stay ON, and if it took the port away, the next command would raise. Nobody but the executor commands the outlet of a known machine; the discovery route refuses such an outlet.
- Execution.Executor.TearDown: other threads leave `ready_for_service` alone during a run.
- `Machine` is split in two: its entry and executor (`MachineRegistry.Machine`) and its power (`PduPorts.PoweredMachine`).
- A training session is one step: a mark that somebody sets while a job runs is modelled as set before or after it, although a report that ends a campaign would overwrite it.
- A watchdog without a timeout ignores all lines and is not listed among the watchdogs.
- Timeouts are values in one list inside the class that owns them; a watchdog's timeout, which two objects of the source share, is reached by its position in that list, and `ConsolePatterns` keeps the watchdogs' start times on its own.
- `JobConsole` is split in two: the state protocol (`JobConsoles`) and the line reader (`ConsolePatterns.ConsoleReader`); the receive loop, the client's input and log messages are not modelled, nor is the content of the session-end message.
- Regular expressions for console patterns are arbitrary predicates on lines; those that cut lines, find pings and recognise MAC addresses and hosts are modelled exactly.
- `Messages.Recv` reads a stream with arbitrary partial reads; a `send` that the kernel cuts short, JSON and message classes are not modelled beyond an encoding that decoding undoes.
- `CommitFrontier.FindFirstAccessible` gets libgit2's walk by what it yields (reachable from HEAD and not from a queried commit); the walker's order and internals and shallow clones are not modelled.
- `TracePacking.TracesUnder` takes the limit as a real number of bytes; the rounding of a float is not modelled.
- `MachineRegistry.Mars.AddOrUpdateMachine` leaves the parsing of IPv4 addresses open and does not model the fields that have a default, nor those of the wrong type or unknown.
- `MachineRegistry.Mars.SyncMachines` assumes that the file loads and that neither a `Machine` constructor nor `update_config` raises (it creates a port and writes the hosts file); machines that the file no longer lists are tracked by MAC address, and iteration is in arbitrary order.
- `MacAddresses.SplitMac` lower-cases ASCII letters only.
- `DhcpHosts.Dnsmasq.AddStaticAddress` replaces the file in one step; the temporary file, its mode and the reload of dnsmasq are not modelled.
- `VirtualPdu.Server.Handle` reads whole four-byte requests; short reads, qemu and disks are not modelled, and the driver is used for ports below 256, the most that the server's one-byte count can advertise.
- `BootOnAc.PressesAreSpaced` takes for granted that a turn after a press begins after its release, as `loop()` is sequential.
- `JunitReport.GenerateSuite` keeps which cases fail, not their texts, names and times.

What the repository does that is not here:

- Flask routes, HTTP clients, MinIO, GitLab registration and SNMP drivers: input and output over libraries.
- The hand-off from `start_job` to `session_init`: it is not synchronised, so the model starts from a job already picked up.
- Job files, YAML and schemas, templates other than the hosts file, `Deployment.update`, bucket names and one-time secrets: parsing by libraries, look-ups and substitutions of text.
- SALAD's extraction of machine identifiers and its relaying between consoles and clients.
- gfxinfo tables, Vulkan queries, the dashboard, Ansible roles, shell scripts and `vivian`: no algorithmic state.
