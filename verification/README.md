# FreeIPMI watchdog, configuration and string transfer: a Dafny model

This project models the stateful parts of three FreeIPMI tools and proves what
holds in all of their runs.

* **bmc-watchdog** (`BmcTimer`, `ErrorLimiter`, `WatchdogHost`, `DaemonRun`,
  `DaemonSafety`, `DaemonExpiry`, `IgnoreState`, `LoopTrace`, `FailureReports`,
  `WatchdogDaemon`). A watchdog timer as sections 27.5 to 27.7 of IPMI v2.0
  describe it, with an explicit clock in microseconds; the retry layer, the
  commands, the limiter of repeated log lines, and the daemon with its setup,
  main loop and shutdown. `Host` is the process together with its clock, the BMC
  timer and the answers still to come. The answers are a finite script; a command
  that needs more than the script holds returns `Cut`. Statements about all
  scripts are statements about every finite prefix of every run, including those
  in which a retry loop never ends. The main loop leaves one record per
  iteration; `DaemonRun.Run` says what a sequence of such records looks like, the
  loop is proved to produce only such sequences, and the theorems about the
  daemon are lemmas about all of them. Conversely the answers and the sleeps
  determine the sequence (`Deterministic`), and every sequence in which no command
  has to be retried comes out of the loop for a script of answers (`Replay`).
* **ipmi-config** (`CipherPrivileges`, `LanAuth`, `ChannelAccess`, `KeyPairs`).
  Read-modify-write commits against a BMC that takes whole records only: the
  RMCP+ cipher suite privileges with their cache, the authentication enables with
  their retry, the channel access settings over two stores; and the parser and
  the list of key pairs given on the command line.
* **bmc-device / bmc-info** (`SystemInfo`). Writing a system info string block by
  block and reading it back.

Code that works by changing things is modelled so: classes for the BMCs, the
process, the cache and the linked list, arrays for the fixed buffers, loops where
the source has loops.

`dafny verify dfyconfig.toml` checks the project.

## Results that differ from what one might expect

* *The daemon does not drift.* If the commands of an iteration leave a second of
  the period over, iteration k starts exactly k periods after the first on a
  clock of whole seconds, whatever the commands take: the fraction of a second
  lost by dropping microseconds is lost once, not in every iteration
  (`StartsOnTheSecond`, `ResetGap`).
* *How long the countdown has to be.* Let no command of the main loop take longer
  than L and the answer to a successful Reset no longer than A, let at most n
  iterations in a row go without one, and let other processes do nothing during
  the sleeps but stop the timer or restart its countdown. A countdown that exceeds
  (n + 1) period + 2 L + D never runs out (`NeverExpires`), where D is how much later
  than n + 1 periods an iteration can start. One that does not runs out in some run
  (`ExpiringRun`), so that the condition is exact for all parameters
  (`SafeExactly`). D comes from following the longest run through the microseconds
  at which its iterations start (`Late`); in closed form (`EnoughIs`) it is,
  * without the workaround, if 2 L + 1 s fit into the period: A + 2 n L, but less
    than one second;
  * without it, if 2 L fill the period: A + 2 n L;
  * under the workaround, if 3 L + 2 s fit into the period: A + (2 n + 1) L, but less
    than one second;
  * under it, if only 2 L + 1 s fit: A + L + 1 s, and 2 n L, but of the latter less
    than one second;
  * under it, if 2 L fill the period: A + (2 n + 1) L + 1 s.

  With 2 L between the period less a second and the period it depends on the
  microsecond at which an iteration starts whether its commands use up the period,
  and only `Late` says it, unless n = 0 or the period is at most one second, where
  the last formula of each mode holds. For a period of 60 s, n = 0 and requests of
  one second (L = 11 s, A = 1 s) a countdown of 83.0 s suffices and one of 82.9 s
  does not. Under the workaround a run can also end too early for harm: with n = 0 a
  countdown of at most a second has run out before the first Get, which then ends
  the loop (`OverAtOnce`).
* *Resets that come too late.* The same bound decides, for all parameters without
  the workaround, whether a Reset can reach a timer that has stopped after the Get
  saw it running (`ResetsMeetRunningExactly`). With short countdowns it takes
  another process that restarts the timer during a sleep, so that it runs out while
  a later Reset is under way. The only exceptions are a countdown of zero, which no
  Get sees running, and commands that take no time.
* *Ignore-state mode: false verdicts.* A healthy timer is never declared stopped as
  long as every Reset that took effect was followed by a successful Get and no
  other process acts, if readings that trail by up to 100 ms, as section 27.7
  allows, meet naps of two seconds (`NoFalseStop`). Naps of one second are not
  enough, for any period and with every command succeeding (`NoFalseStopExactly`);
  where they can do harm the iteration before the verdict was read, and ended,
  between 100 and 200 ms into a second of the countdown (`FalseStopComesFrom`).
  Whether commands within L and at most n iterations in a row without a successful
  Reset can bring that about is decided for every countdown of whole seconds
  (`TimelyExactly`). They cannot, exactly if
  * the period is five seconds or more and 3 L + 3 s fit into it;
  * it is four seconds and L is at most 0.4 s;
  * it is three seconds and L is less than 50 ms;
  * it is one or two seconds and (2 n + 1) L, or 2 L for n = 0, is less than 100 ms:
    failed iterations shift the start of the next one, and the shifts add up.

  With a period of zero they always can.
  One failed Get after a Reset (`FailedRereadStopsHealthyTimer`) and one Reset that
  took effect although reported as failed (`LandedResetStopsHealthyTimer`) are each
  enough for a false verdict, for every period.
* *Ignore-state mode: stops by others.* A stopping Set puts the whole countdown back,
  so the next reading differs from the remembered one and the stop is not noticed
  (`ReloadedStopGoesUnnoticed`): the Reset that follows undoes it, and only if no
  Reset takes effect does the next Get notice it (`StopUndoneOrNoticed`).
* *Missing data during setup.* A Get whose response lacks a field ends the setup,
  unless an earlier request of the same command was busy and that failure is the
  one the limiter remembers (`MissingDataExits`). Seven busy answers followed by a
  response without the data are such a case (`UnnoticedMissingData`). A fatal driver
  error is never hidden.
* *What is logged.* In every run a line is written for the first of each stretch of
  equal failures and for every tenth after it, whatever succeeds in between
  (`LoggedExactly`): n failing Gets in a row leave exactly ceil(n / 10) lines
  (`FailingGetsLogged`). Busy answers are logged elsewhere, each time. Two completion codes whose text is known count as equal, so
  that the second can go unlogged (`RecordedExactly`).
* *Retry tuning.* The `else if` at bmc-watchdog/bmc-watchdog.c:1224 can never be
  entered; what remains fits into every period.
* *BMCs that report no cipher suite entries.* The privileges are then not read and
  not cached, so a commit writes UNSPECIFIED over every other slot. The configured
  section is reached exactly if all but the last committed privilege were
  UNSPECIFIED (`NoEntriesWipeTheRest`); with at least one entry it is reached in
  every order.
* *Authentication enables of a second channel.* The retry takes in the OEM keys of
  the section named Lan_Conf_Auth even when another channel's section is being
  committed. That converges exactly if both sections agree on the OEM keys they
  share (`ChannelSectionConvergesExactly`); a full order of commits puts the section
  in force exactly if every OEM key on which they differ was committed after the
  last retry (`SectionInForceExactly`).
* *Key pairs.* A value comes back unchanged exactly if it contains no blank; a
  section or key made of blanks parses successfully into a null pointer, which
  ends the program in an assertion (`ValueRecoveredExactly`, `NullPartsExactly`,
  `Take`).

## Model

| member | source | states |
|---|---|---|
| BmcTimer.WriteThenReadExactly | bmc-watchdog/bmc-watchdog.c:318-318 | multiplying by ten into 16 bits and dividing back is the identity exactly up to 6553 seconds |
| BmcTimer.RoundsSettleAtOnce | bmc-watchdog/bmc-watchdog.c:921-955 | any number of Get-then-Set rounds lowers the stored countdown once, by less than ten chunks, and then leaves it alone |
| BmcTimer.DeliverKeepsWellFormed | bmc-watchdog/bmc-watchdog.c:299-353 | no request that respects the pre-timeout rule, however often it takes effect, breaks the rule in the BMC |
| BmcTimer.StopKeepsFlags | bmc-watchdog/bmc-watchdog.c:1381-1393 | a stopping Set, however often it takes effect, changes no expiration flag but the cleared ones and the one the old countdown raised itself |
| BmcTimer.DeliverReset | bmc-watchdog/bmc-watchdog.c:269-296 | repeated Resets keep the settings; the timer runs and counts from the last one |
| BmcTimer.DeliverSetRunning | bmc-watchdog/bmc-watchdog.c:662-694 | a Set that does not stop the timer leaves it running on the new countdown |
| BmcTimer.ResetsKeepAlive | bmc-watchdog/bmc-watchdog.c:1303-1307 | Resets that take effect before the deadline keep the timer from ever reaching it |
| BmcTimer.AliveMeansUntouched | bmc-watchdog/bmc-watchdog.c:1303-1307 | a timer that never reached its deadline still runs and shows no new flag |
| BmcTimer.ReadingsDiffer | bmc-watchdog/bmc-watchdog.c:1278-1284 | two readings of one running countdown sampled a second apart differ in whole seconds |
| ErrorLimiter.FreshReports | bmc-watchdog/bmc-watchdog.c:995-1028 | n identical failures after a different one pass the limiter exactly ceil(n/10) times and leave the counter at (n-1) mod 10 |
| ErrorLimiter.RepeatedReports | bmc-watchdog/bmc-watchdog.c:995-1028 | from a remembered failure with counter c, n more pass (c+n)/10 times; the counter stays below ten |
| ErrorLimiter.VerboseReports | bmc-watchdog/bmc-watchdog.c:999-1009 | verbose logging suppresses nothing |
| ErrorLimiter.LoggedExactly | bmc-watchdog/bmc-watchdog.c:995-1028 | of any sequence of failures exactly the first of each stretch of equal ones and every tenth after it get a line, and in verbose mode every one; a busy one gets none here |
| WatchdogHost.Host.Cmd | bmc-watchdog/bmc-watchdog.c:190-266 | terminates after at most retry_attempts + 1 requests, all but the last busy; succeeds exactly if the last request did; takes its requests and retry_wait_time seconds after each that is retried, less what signals cut off; timer and recorded failure are those of that exchange |
| WatchdogHost.EffectSequenced | bmc-watchdog/bmc-watchdog.c:190-266 | a command takes effect within its own duration, in order, and at least once if it succeeds |
| WatchdogHost.EffectTime | bmc-watchdog/bmc-watchdog.c:212-263 | a command lasts at most retry_attempts requests with their sleeps plus one request |
| WatchdogHost.CommandTakes | bmc-watchdog/bmc-watchdog.c:212-259 | the same time for every kind of request, wait and answers, and exactly the full sleeps if no signal cuts one short |
| WatchdogHost.RecordedExactly | bmc-watchdog/bmc-watchdog.c:212-247 | failures are remembered as the same exactly if the command is and the kind of busy answer, the driver's error or the completion code; codes with a known text all count as one |
| WatchdogHost.NothingHits | bmc-watchdog/bmc-watchdog.c:212-263 | a command none of whose requests took effect leaves no trace in the BMC |
| WatchdogHost.AnswerDecides | bmc-watchdog/bmc-watchdog.c:214-262 | a request answered at once ends its command with success, so a command whose requests are all answered always finishes |
| WatchdogHost.TunedFitsPeriod | bmc-watchdog/bmc-watchdog.c:1216-1226 | the three-way adjustment never enters its second branch: retries are kept or given up, and what remains fits into every reset period |
| WatchdogHost.Host.GetTimer | bmc-watchdog/bmc-watchdog.c:356-487 | shows the timer as of the instant the BMC answered, in seconds, without changing it; missing data turns success into failure |
| WatchdogHost.Host.SetTimer | bmc-watchdog/bmc-watchdog.c:299-353 | the record with ten times the seconds takes effect in order, at least once on success |
| WatchdogHost.Host.ResetTimer | bmc-watchdog/bmc-watchdog.c:269-296 | the timer restarts at the instants of delivery, the last one a reply time before success is seen |
| WatchdogHost.Host.DaemonCmdErr | bmc-watchdog/bmc-watchdog.c:995-1028 | updates the limiter and writes the line exactly as `Noted` says, of which the counting theorems speak |
| WatchdogHost.Host.SetCommand | bmc-watchdog/bmc-watchdog.c:628-714 | either only restarts the timer, or leaves each setting and the countdown at the option's value or, without one, at its old value, stops the timer if asked for or if it was stopped, and then restarts it exactly if an option asks for it; gives up exactly if the pre-timeout interval does not fit |
| WatchdogHost.Host.RestartAfterSet | bmc-watchdog/bmc-watchdog.c:690-711 | restarts the timer exactly if it was seen stopped under --start-after-set or running under --reset-after-set, and otherwise leaves it alone |
| WatchdogHost.Host.StartCommand | bmc-watchdog/bmc-watchdog.c:870-887 | a running timer is left exactly as it is, a stopped one is running afterwards |
| WatchdogHost.Host.ResetCommand | bmc-watchdog/bmc-watchdog.c:863-867 | the timer runs afterwards, counting from an instant within the command |
| WatchdogHost.Host.StopCommand | bmc-watchdog/bmc-watchdog.c:921-955 | stops the timer, keeps settings and flags, lowers the countdown by less than a second |
| WatchdogHost.Host.ClearCommand | bmc-watchdog/bmc-watchdog.c:958-992 | stops the timer and clears everything but the timer use and the flags |
| WatchdogHost.StopInPlace | bmc-watchdog/bmc-watchdog.c:926-954 | writing back what was read stops the timer and changes nothing else but the fraction of a second |
| WatchdogHost.DeliverStopAgain | bmc-watchdog/bmc-watchdog.c:1379-1402 | repeating the stopping Set until it succeeds has the effect of the first one that took effect |
| WatchdogHost.MissingDataExits | bmc-watchdog/bmc-watchdog.c:157-176 | exactly when a response without data ends the setup, and that it always does unless a busy request preceded it |
| WatchdogHost.MissingDataHidden | bmc-watchdog/bmc-watchdog.c:995-1028 | on seven busy answers and a response without data the limiter of a fresh process takes the second failed Get for a repetition and ignores it |
| WatchdogDaemon.UnnoticedMissingData | bmc-watchdog/bmc-watchdog.c:1054-1078 | on those answers two rounds of the setup's loop around the Get end without leaving the daemon |
| WatchdogHost.RetriedFatal | bmc-watchdog/bmc-watchdog.c:221-247 | a fatal driver error is always the last request of its command |
| WatchdogDaemon.Round | bmc-watchdog/bmc-watchdog.c:1073-1078 | reports the command exactly if it failed and then sleeps a second; in the setup a fatal error always ends the daemon, and what the limiter remembers stays harmless |
| WatchdogDaemon.Setup | bmc-watchdog/bmc-watchdog.c:1047-1138 | ends with each setting and the countdown at the option's value or, without one, at its old value, and the timer running since the last Reset; or leaves at the first fatal error, or changed nothing; reports every failed command |
| WatchdogDaemon.GetUntilDone | bmc-watchdog/bmc-watchdog.c:1054-1078 | repeats the Get, reports each failure, never touches the timer, and exits only with a cause |
| WatchdogDaemon.SetUntilDone | bmc-watchdog/bmc-watchdog.c:1104-1126 | repeats the stopping Set and reports each failure; its record is in force when it ends, or the timer is as before |
| WatchdogDaemon.ResetUntilDone | bmc-watchdog/bmc-watchdog.c:1128-1138 | repeats the Reset and reports each failure; the timer is running when it ends |
| FailureReports.LoopFaultsJoin | bmc-watchdog/bmc-watchdog.c:1054-1078 | the failures of a repeated command are those of its rounds in order, told from the answers alone |
| WatchdogDaemon.CheckTimer | bmc-watchdog/bmc-watchdog.c:1251-1299 | the Get of an iteration, reported if it failed, and the verdict on the timer, by state or by an unchanged reading |
| WatchdogDaemon.RestartTimer | bmc-watchdog/bmc-watchdog.c:1301-1336 | the Reset and the reading remembered afterwards, each reported if it failed |
| WatchdogDaemon.SleepNow | bmc-watchdog/bmc-watchdog.c:1338-1348 | the adjusted sleep, from whole seconds of the two clock readings |
| WatchdogDaemon.Iteration | bmc-watchdog/bmc-watchdog.c:1243-1349 | one pass obeys the law of iterations, used exactly the answers it says, took the time they took and reports exactly its failed commands, in order; a stopped timer ends the daemon with no further command |
| WatchdogDaemon.MainLoop | bmc-watchdog/bmc-watchdog.c:1243-1349 | produces only runs in the sense of `DaemonRun.Run`, each record being what the answers it used and its sleep make of it; reports all failed commands in order; stops only for the flag, a verdict, or want of answers or sleeps |
| FailureReports.FailedAsRecorded | bmc-watchdog/bmc-watchdog.c:1251-1336 | the failures told from the answers of an iteration are those its record shows |
| FailureReports.FailingGetsLogged | bmc-watchdog/bmc-watchdog.c:1251-1268 | in every run n iterations in a row whose Get fails alike, after another failure, are logged exactly ceil(n/10) times, busy ones not at all here, and leave the counter at (n-1) mod 10 |
| WatchdogDaemon.Talk | bmc-watchdog/bmc-watchdog.c:1251-1336 | the commands of an iteration: Get, verdict, Reset and the reading remembered afterwards, nothing after a verdict, and a report of each that failed |
| WatchdogDaemon.Replay | bmc-watchdog/bmc-watchdog.c:1243-1349 | every run in which no command has to be retried comes out of the loop for the script of its answers |
| LoopTrace.Deterministic | bmc-watchdog/bmc-watchdog.c:1243-1349 | from the same instant and timer, the same answers and sleeps lead to the same iterations |
| LoopTrace.ExchangedInTime | bmc-watchdog/bmc-watchdog.c:190-266 | requests answered in time keep every command of an iteration within its retries and the answer to a successful Reset within one request |
| WatchdogDaemon.Shutdown | bmc-watchdog/bmc-watchdog.c:1351-1402 | ends with the timer stopped, settings and flags kept, the countdown lowered by less than a second, and every failed command reported |
| WatchdogDaemon.Daemon | bmc-watchdog/bmc-watchdog.c:1183-1403 | whole runs: if requests return in time a countdown above the bound never runs out, and steady commands give no healthy timer up under the workaround; the shutdown stops the timer; a timer declared stopped is not touched |
| WatchdogDaemon.RunTools | bmc-watchdog/bmc-watchdog.c:1406-1443 | over any sequence of tool runs, also failing or broken-off ones, an enabled pre-timeout interrupt fits into the countdown |
| DaemonRun.IterationLength | bmc-watchdog/bmc-watchdog.c:1338-1348 | an iteration lasts at most the period and its commands, and if the commands leave a second over it is finished, in whole seconds, when the period is |
| DaemonRun.StartsOnTheSecond | bmc-watchdog/bmc-watchdog.c:1338-1348 | punctual iterations start exactly a period apart on a clock of whole seconds, over any number of them: the daemon does not drift |
| DaemonRun.ResetGap | bmc-watchdog/bmc-watchdog.c:1243-1349 | successful Resets with n iterations between them complete at most (n+1)(period + 2L) apart, and less than (n+1) period + 1 s + 2L if iterations are punctual; with the workaround's second and Get added per iteration |
| DaemonSafety.NeverExpires | bmc-watchdog/bmc-watchdog.c:1243-1349 | with a countdown above the bound the timer is never reached by its deadline, with and without the workaround, whether others stop or restart it; without the workaround every Reset meets a running timer, and only a timer another process stopped is declared stopped |
| DaemonSafety.RunIsSafe | bmc-watchdog/bmc-watchdog.c:1243-1349 | the same for all iterations of a run at once |
| DaemonSafety.StallIsAhead | bmc-watchdog/bmc-watchdog.c:1338-1348 | nothing that happens in an iteration without a successful Reset, whatever its length and the microsecond it starts at, is worse than the longest choice at every step |
| DaemonSafety.RenewedInTime | bmc-watchdog/bmc-watchdog.c:1301-1348 | from the landing of a successful Reset to the next iteration it takes no longer than said, given the microsecond at which that one starts |
| DaemonSafety.EnoughIs | bmc-watchdog/bmc-watchdog.c:1338-1348 | the closed forms of the bound, regime by regime |
| DaemonExpiry.LateRun | bmc-watchdog/bmc-watchdog.c:1338-1348 | for all parameters and every microsecond a run whose last iteration starts as late as the bound says |
| DaemonExpiry.ExpiringRun | bmc-watchdog/bmc-watchdog.c:1243-1349 | with a countdown at or below the bound there is a run, within all the assumptions, in which the timer runs out, and in which a Reset finds a timer seen running stopped if the countdown lasts that long |
| DaemonExpiry.SafeExactly | bmc-watchdog/bmc-watchdog.c:1243-1349 | all runs are safe exactly if the countdown exceeds the bound, with and without the workaround, for all parameters; the one exception is a countdown that is over before the first Get of the workaround |
| DaemonExpiry.ResetsMeetRunningExactly | bmc-watchdog/bmc-watchdog.c:1292-1307 | without the workaround no Reset in any run reaches a stopped timer exactly if the countdown exceeds the bound, is zero, or commands take no time; for all n, periods and command times |
| IgnoreState.RememberedReading | bmc-watchdog/bmc-watchdog.c:1284-1335 | in ignore-state mode the remembered reading belongs to the countdown in force and is a whole nap old |
| IgnoreState.NoFalseStop | bmc-watchdog/bmc-watchdog.c:1236-1335 | in ignore-state mode a healthy timer is not declared stopped in any clean run whose naps exceed by a second what readings may trail, the 100 ms of section 27.7 included |
| IgnoreState.NoFalseStopExactly | bmc-watchdog/bmc-watchdog.c:1236-1348 | with readings that trail by up to 100 ms no healthy timer is declared stopped exactly if naps last two seconds |
| IgnoreState.FalseStopRun | bmc-watchdog/bmc-watchdog.c:1228-1284 | for every period a run of successful commands, with a nap of one second and a trailing reading, that gives a healthy timer up |
| IgnoreState.FalseStopComesFrom | bmc-watchdog/bmc-watchdog.c:1276-1348 | before every false verdict with a countdown of whole seconds there is a nap of one second, and an iteration read and ended in the second tenth of a second of the countdown |
| IgnoreState.SteadyRun | bmc-watchdog/bmc-watchdog.c:1236-1348 | over every run with steady commands, failed iterations included, a healthy timer is never given up |
| IgnoreState.UnsteadyRun | bmc-watchdog/bmc-watchdog.c:1236-1348 | for all periods, n and command times that are not steady, a run of unretried commands on a countdown of whole seconds that gives a healthy timer up |
| IgnoreState.TimelyExactly | bmc-watchdog/bmc-watchdog.c:1236-1348 | no healthy timer is given up exactly if commands are steady, a condition on the period, the command time and, for periods up to two seconds, the failed iterations |
| IgnoreState.FailedRereadStopsHealthyTimer | bmc-watchdog/bmc-watchdog.c:1318-1335 | for every period and countdown, a failed Get after a Reset leads to a false verdict, and the same run without that failure does not, unless the period is zero |
| IgnoreState.LandedResetStopsHealthyTimer | bmc-watchdog/bmc-watchdog.c:1301-1307 | for every period a Reset that took effect although reported as failed leads to a false verdict |
| IgnoreState.ReloadedStopGoesUnnoticed | bmc-watchdog/bmc-watchdog.c:1276-1335 | a stop that puts the whole countdown back is not noticed by the Get that follows |
| IgnoreState.StopUndoneOrNoticed | bmc-watchdog/bmc-watchdog.c:1276-1307 | a stop not noticed at once is undone by the first Reset that takes effect, or noticed by the next Get |
| CipherPrivileges.State.Setup | ipmi-config/ipmi-config-category-core-rmcpplus-conf-privilege-section.c:46-326 | loads the cache for a channel or fails part way, with the kind of error of the command that failed; either way what is in use stays faithful to the BMC |
| CipherPrivileges.State.LoadIds | ipmi-config/ipmi-config-category-core-rmcpplus-conf-privilege-section.c:164-218 | afterwards an id is supported exactly if it is among the first reported ones, or below sixteen if those are 1 to 16 |
| CipherPrivileges.State.LoadPrivs | ipmi-config/ipmi-config-category-core-rmcpplus-conf-privilege-section.c:253-318 | reads the sixteen privileges and marks the slots that cannot be read |
| CipherPrivileges.State.Checkout | ipmi-config/ipmi-config-category-core-rmcpplus-conf-privilege-section.c:329-389 | shows the value the BMC stores for a supported id that can be read, id 0 of a BMC that counts from 1 included, and nothing exactly if the cache marks it not readable |
| CipherPrivileges.State.Commit | ipmi-config/ipmi-config-category-core-rmcpplus-conf-privilege-section.c:392-548 | on success the BMC holds the cached record with the committed and the needed configured privileges; otherwise it is unchanged, in particular when a needed value is missing |
| CipherPrivileges.State.FillIn | ipmi-config/ipmi-config-category-core-rmcpplus-conf-privilege-section.c:428-503 | makes the record exactly if the section supplies every slot that cannot be read |
| CipherPrivileges.Bmc.SetPrivileges | ipmi-config/ipmi-config-category-core-rmcpplus-conf-privilege-section.c:505-536 | takes four-bit privileges only, so that no caller can send the not-readable mark |
| CipherPrivileges.RecordIsValid | ipmi-config/ipmi-config-category-core-rmcpplus-conf-privilege-section.c:452-503 | a record made from a faithful cache and a validated section never holds the not-readable mark |
| CipherPrivileges.CommitKeepsFaithful | ipmi-config/ipmi-config-category-core-rmcpplus-conf-privilege-section.c:538-543 | patching one cached slot keeps the whole cache faithful to what the BMC now stores |
| CipherPrivileges.RunOperations | ipmi-config/ipmi-config-category-core-rmcpplus-conf-privilege-section.c:61-80 | every interleaving of checkouts and commits on any channels, with any failures, keeps the cache in use faithful to its channel |
| CipherPrivileges.CommitsReachConfiguration | ipmi-config/ipmi-config-category-core-rmcpplus-conf-privilege-section.c:392-548 | after commits in any order each slot holds its configured value if committed or unreadable, its cached value otherwise |
| CipherPrivileges.SectionReached | ipmi-config/ipmi-config-category-core-rmcpplus-conf-privilege-section.c:392-548 | committed ids end at their configured privileges, readable slots outside the order are unchanged |
| CipherPrivileges.OrderDoesNotMatter | ipmi-config/ipmi-config-category-core-rmcpplus-conf-privilege-section.c:392-548 | two orders of the same ids end in the same record |
| CipherPrivileges.NoEntriesWipeTheRest | ipmi-config/ipmi-config-category-core-rmcpplus-conf-privilege-section.c:130-221 | with no entries reported only the last commit survives; exactly when the section is reached all the same |
| CipherPrivileges.CommitAll | ipmi-config/ipmi-config-category-core-rmcpplus-conf-privilege-section.c:392-548 | the commits of a section lead to that record; with everything working they stop only at a value the section lacks, where the BMC holds what the commits so far made |
| LanAuth.SetAuthenticationEnables | ipmi-config/ipmi-config-category-core-lan-conf-auth-section.c:491-683 | stores the record, or after an invalid-data answer the record with the nine OEM settings of Lan_Conf_Auth, or nothing; at most two requests |
| LanAuth.OemFields | ipmi-config/ipmi-config-category-core-lan-conf-auth-section.c:580-623 | the retry takes in the proprietary type of four levels and all five types of the OEM level |
| LanAuth.Commit | ipmi-config/ipmi-config-category-core-lan-conf-auth-section.c:850-881 | on success the field, or the field and the absorbed OEM fields, changed; it succeeds exactly if the commands work and the BMC accepts one of the two records, and says exactly when the error is fatal |
| LanAuth.StepConverges | ipmi-config/ipmi-config-category-core-lan-conf-auth-section.c:575-638 | a commit of the base section changes only its field and OEM fields, always to the user's values, so disagreement shrinks |
| LanAuth.ChannelSectionConvergesExactly | ipmi-config/ipmi-config-category-core-lan-conf-auth-section.c:580-591 | for another channel's section disagreement never grows exactly if the two sections agree on the OEM keys both configure |
| LanAuth.FullOrder | ipmi-config/ipmi-config-category-core-lan-conf-auth-section.c:850-881 | what every commit keeps determines the state after a full order |
| LanAuth.FinalRecord | ipmi-config/ipmi-config-category-core-lan-conf-auth-section.c:575-638 | every field of the record after any commits of any section, with any of them retried: the base section's OEM value, the user's value or the old one |
| LanAuth.SectionInForceExactly | ipmi-config/ipmi-config-category-core-lan-conf-auth-section.c:575-638 | a full order puts the section in force exactly if every OEM key on which it differs from the base section was committed after the last retry |
| LanAuth.BaseConverges | ipmi-config/ipmi-config-category-core-lan-conf-auth-section.c:850-881 | any commits of the base section shrink disagreement, and a full order ends in the configured record whatever the order was |
| LanAuth.CommitAll | ipmi-config/ipmi-config-category-core-lan-conf-auth-section.c:850-881 | a sequence of commits of any section leads to that record, retries exactly when the BMC refuses the first record, and stops only at a commit whose two records are refused |
| LanAuth.AbsorbingUnsticks | ipmi-config/ipmi-config-category-core-lan-conf-auth-section.c:557-572 | a BMC that refuses OEM bits but came with some accepts every commit thanks to the retry, and none without it |
| ChannelAccess.InversionsCancel | ipmi-config/ipmi-config-category-core-channel-common.c:202-235 | inverting on read and on write loses nothing |
| ChannelAccess.Bmc.Commit | ipmi-config/ipmi-config-category-core-channel-common.c:253-632 | get, change one field, set: leaves the disabling bit of the key's own record clear exactly for 1, the mode and the limit as given, and every other field of both records as it was; a refusal changes nothing |
| ChannelAccess.Bmc.Checkout | ipmi-config/ipmi-config-category-core-channel-common.c:137-602 | shows 1 exactly if the disabling bit of the key's own record is clear, mode and limit as they are stored |
| ChannelAccess.CommitShows | ipmi-config/ipmi-config-category-core-channel-common.c:367-632 | a commit shows in its own key and in no other |
| ChannelAccess.CheckoutShowsLastCommit | ipmi-config/ipmi-config-category-core-channel-common.c:341-632 | after any commits every key shows the value last committed to it |
| ChannelAccess.FieldsTellLastCommit | ipmi-config/ipmi-config-category-core-channel-common.c:202-632 | after any commits every disabling bit is clear exactly if the value last committed to its key, or first shown, is 1 |
| ChannelAccess.StoresAreIndependent | ipmi-config/ipmi-config-category-core-channel-common.c:79-134 | commits to one store never change the other |
| ChannelAccess.ShownDeterminesStored | ipmi-config/ipmi-config-category-core-channel-common.c:137-338 | records that show the same values are the same |
| ChannelAccess.DistinctKeysCommute | ipmi-config/ipmi-config-category-core-channel-common.c:367-632 | commits of distinct keys can be exchanged anywhere in a sequence |
| ChannelAccess.CommitAll | ipmi-config/ipmi-config-category-core-channel-common.c:367-632 | a sequence with failures leaves the records of the commits that succeeded |
| SystemInfo.BlocksMakeString | bmc-device/bmc-device.c:2583-2622 | the blocks make up the string, all but the last are full, and 17 always suffice |
| SystemInfo.WriteString | bmc-device/bmc-device.c:2517-2630 | sends the blocks in order without a gap, stops at the first failure, and stores exactly those accepted |
| SystemInfo.ReadString | bmc-info/bmc-info.c:795-914 | prints what the responses hold up to the first NUL, asking until the announced length is there; so a stored NUL-free string is printed whatever mixture of exact and padded blocks comes back; a failing request decides the result |
| SystemInfo.GatheredString | bmc-info/bmc-info.c:849-914 | all blocks of a string, padded or not, show that string |
| SystemInfo.ReadBlock | bmc-info/bmc-info.c:892-906 | appends the data of one response behind what was read |
| SystemInfo.GetData | libfreeipmi/fiid/fiid.c:2020-2083 | copies the data and zeroes the rest of the buffer, or leaves it alone if the field is not set |
| SystemInfo.CStringOfPadded | bmc-info/bmc-info.c:909-914 | padding is invisible in the text printed |
| SystemInfo.WriteThenRead | bmc-device/bmc-device.c:2517-2630 | what was written is what is read, whatever the parameter held before |
| KeyPairs.StrtokR | ipmi-config/ipmi-config-argp.c:226-241 | cuts the token in place, leaves the rest where the next call goes on, and writes nowhere else |
| KeyPairs.ParseString | ipmi-config/ipmi-config-argp.c:199-298 | the chain of in-place cuts computes `Parse` on every string |
| KeyPairs.ParsesParts | ipmi-config/ipmi-config-argp.c:226-241 | section, key and value are separated at the first ':' and the next '=' |
| KeyPairs.ParsesAny | ipmi-config/ipmi-config-argp.c:226-283 | any string with a section and a key: colons and equals signs in front of them are skipped, and without an equals sign behind the key the value is empty |
| KeyPairs.ImproperExactly | ipmi-config/ipmi-config-argp.c:226-241 | a string is improper exactly if it has no section with a colon behind it and a key behind that |
| KeyPairs.ParseRecovers | ipmi-config/ipmi-config-argp.c:226-283 | the three parts come back, with blanks around them dropped |
| KeyPairs.ValueRecoveredExactly | ipmi-config/ipmi-config-argp.c:240-241 | a value comes back unchanged exactly if it has no blank |
| KeyPairs.NullPartsExactly | ipmi-config/ipmi-config-argp.c:235-265 | the parser succeeds without a section or key exactly if that part is blank |
| KeyPairs.NamedExactly | ipmi-config/ipmi-config-argp.c:301-334 | names are taken for the same exactly if they are of the same length and their characters differ in letter case at most |
| KeyPairs.Keypairs.Append | ipmi-config/ipmi-config-argp.c:301-334 | appends at the end exactly if no pair has the same section and key, letter case aside; a rejected append changes nothing |
| KeyPairs.AppendAll | ipmi-config/ipmi-config-argp.c:301-334 | any number of appends keep the order and the uniqueness |
| KeyPairs.Take | ipmi-config/ipmi-config-argp.c:199-344 | one option adds exactly what was parsed, exactly if both parts are there and the name is free; a blank part ends in the assertion of the constructor |

## Left out

- DaemonExpiry.SafeExactly: readings may trail by any time; where the period is zero or the countdown under two seconds, the run that shows the bound necessary under the workaround uses readings that trail by more than 100 ms.
- DaemonExpiry.ResetsMeetRunningExactly: without the workaround only; under it the daemon resets stopped timers on purpose.
- WatchdogDaemon.Replay: runs with retried commands are covered by `Deterministic`, not by a script.
- WatchdogDaemon.Round: a signal can cut the sleeps between retries short, but not the second between the rounds of a setup or closing loop.
- WatchdogDaemon.RestartTimer: the second that the workaround waits after a Reset is not cut short by a signal.
- WatchdogDaemon.SleepNow: sleeps do not overshoot; the clock is monotone.
- WatchdogDaemon.Iteration: other processes act during the sleep at the end of an iteration only, and an iteration that the script cuts short leaves no record.
- WatchdogDaemon.Setup: the ARP options are not modelled; the response option takes the value of the gratuitous one at bmc-watchdog/bmc-watchdog.c:1150.
- WatchdogHost.Host.StartCommand: the ARP options are not modelled.
- IgnoreState.TimelyExactly: the answer to a successful Reset may take as long as any command, and the countdown is as long as the run that shows the condition necessary needs, which for long periods or many failed iterations is more than 6553 s.
- CipherPrivileges.State.Checkout: ids are those of the key names, 0 to 15; a larger id would index beyond the cache in the source.
- LanAuth.Commit: keys are field numbers; the comparison of the 25 key names without regard to case is not modelled, nor is the cache of supported types that only hides keys from a checkout.
- ChannelAccess.Bmc.Commit: keys are store and item; finding "Non_Volatile" in the key name is not modelled.
- KeyPairs.AppendAll: pairs are appended up to the first duplicate; the exit of the program after it is not modelled.
- SystemInfo.ReadString: a response without encoding or length is the case of length zero; restoring the context flags is not modelled.
- WatchdogHost.Host.Cmd: the lines that `_cmd` writes itself, after its last busy answer and in verbose mode, are not modelled; those of `_daemon_cmd_err` are.
- Driver opening, daemonizing, signals' installation, syslog, message objects and printing.
- The channel number of a section name, and its failure; operations take the channel.
- Power-on hours, boot flags, front panel buttons, PEF, serial, user security and LAN address sections; the hexadecimal and decimal argument parsers of bmc-device: they would add only simpler members.
