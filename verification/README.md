# A verified model of the Palette controller's schedules, protocols and histories

The controller of Palette Server watches one Tableau Server: it starts commands on agents
at times that cron expressions give, lets users back up, restore, start and stop the server
one at a time, keeps a registry of connected agents, and keeps histories (audit rows,
recent mails, archives, disk events, log lines).  This project models the code that decides
in these places, and proves what it promises - or, where the code does not keep the simple
promise, exactly when it does.

`dafny verify dfyconfig.toml` checks everything.

## How it is laid out

| part | files |
|---|---|
| calendar and `relativedelta`, and its days in closed form | `Calendar.dfy`, `CivilDays.dfy` |
| cron: matching, and nearest values in a column | `CronFields.dfy`, `CronClock.dfy` |
| cron: forward search, and what it finds | `CronNext.dfy`, `CronForward.dfy`, `CronYears.dfy`, `CronSchedule.dfy` |
| cron: backward search, and what it finds | `CronPrev.dfy`, `CronBackward.dfy`, `CronBackwardExact.dfy`, `CronRetrace.dfy`, `CronRetraceExact.dfy` |
| cron: the iterator | `CronIterator.dfy` |
| cron: expanding an expression, and what its columns mean | `CronExpand.dfy`, `CronColumns.dfy`, `CronParse.dfy` |
| the command protocol between controller and agent | `ProcessManager.dfy`, `CliProtocol.dfy`, `CliSafety.dfy`, `CliOutcome.dfy`, `CliPolling.dfy` |
| user actions: lock, main state, restore | `UserActions.dfy`, `UserSafety.dfy`, `UserCommands.dfy`, `UserDeeds.dfy` |
| agent connections | `AgentRegistry.dfy` |
| histories | `AlertAudit.dfy`, `EmailLimit.dfy`, `MuteWindow.dfy`, `StreamLogger.dfy`, `Retention.dfy`, `DiskEvents.dfy` |

Objects whose methods update fields are classes; each method is proved against a function of
the old state, and the properties are proved about that function.  The two concurrent
protocols are state machines with one step for each access to shared state, so that any
interleaving of any number of threads is a run; the user actions are also given as the
methods one session runs from beginning to end, and proved to be those steps.

## What turned out

**Cron.**  A column denotes what its numbers, names, ranges and steps say, with day 0, month 0
and weekday 7 standing for others and Sunday's name refused in a range (`RangeMeans`,
`NumberMeans`, `NameMeans`); an expression matches a time when every column allows it; with both
day columns restricted, either of them is enough.  Days are counted month by month, which comes
to the usual closed form (`MonthStartClosed`).  The jumping search of `_calc` ends for every
expression that matches at all, although its own loop guard never changes: some match cannot
be skipped, and no step passes it.  `get_next` returns the least firing time after now, for
every now, *exactly when* the expression is not in a family called `Misses`
(`NextTimeFiresNextIff`): February and March allowed, a day list whose next value after the
end of February is so far off that the step to it, counted on into March, lands behind the
first listed day of March, and (when weekdays are restricted as well) no listed weekday in
between to catch it.

A backward search by itself returns the greatest match before now *exactly when* none of three
faults applies (`PrevIsGreatestIff`): wrapping past December prefers an earlier month, moving
back into February enters it on the 28th, and wrapping over a month's start uses the length
of a wrong month, so that the search comes to an unlisted day or steps over a listed one.
With such a fault the search returns a wrong time, or goes back for ever.  When both day
columns are restricted, `get_prev` takes the later of two searches, and the weekday search
makes up for some of what the day search loses.  It is right at every moment *exactly when*
the expression is not in the family `Forgets` (`PrevTimeFiredLastIff`): the month faults hit
both searches alike; a day search that sticks does no harm only when all seven weekdays are
listed and it does not stick by two days; and a dropped last day of a month does none only
when each weekday, or the midnight after it, is covered.  So days 5 and 31 with Monday to
Friday go wrong, and day 29 with all seven weekdays does not (`ThirtyFirstForgotten`,
`TwentyNinthKept`).  Outside both families,
`get_prev` undoes `get_next`.

**Commands.**  In every run of any number of threads over one connection, a polled command
that returns without an error carries the output of its own process, which exited with
status 0; its directory is gone after exactly one cleanup.  A command whose process had
already ended when the agent answered the start is returned at once, whatever its exit status
(`AnsweredAtStart`); unless it was an immediate one its directory stays behind (`LeftBehind`).
`AnyStatusReturns` is such a run, for every exit status.  A command that was found running at
its start returns its output *exactly when* the last poll found its process ended with status 0
and no request failed, the cleanup included (`PolledSuccessIff`; `AnyOutputReturns` is such a run
for every output).  A command that runs out of time costs the connection, since the agent does
not know the request to kill it, and leaves its directory and its process behind
(`TimedOutStays`, `TimedOutReachable`).  The docstring of `cli_cmd` promises a cleanup in every
case.

**User actions.**  In every interleaving, the lock is taken and let go of in turn, each
action leaves the main state it is to leave, and the agent is sent the start of the action's
plan.  What one action does when no other comes in between is written out in full, state by
state and command by command (`PerformedDeeds`): nothing when the main state, the reported status
or the file to restore refuses, and otherwise its script up to the first command that fails
(`PerformedSends`).  With the lock free, something seems to be under way *exactly when* the last stop, failed
restart or successful restore has not been followed by a status check that recorded anything,
its own or another's (`UnderWay`, with `StopLeavesStopping` as the example; for one action
carried through, `PerformedRests`).  A restore stops the server
first exactly when it is reported RUNNING; a server that is reported DEGRADED is up, and is
not stopped (`RestoreOrder`, `DegradedIsNotStopped`), although the comment there says that a
restore can run only when Tableau is stopped.

**Registry.**  Registering keeps one agent to a uuid and at most one primary exactly when no
connected primary is overlooked, because an agent with the new primary's uuid comes first in
the search and ends it (`EnteredKeepsIff`; `OverlookedReachable` is a run that gets there).
The search was written to let a new primary take over from another one, and it never does
(`NeverTakesOver`): it goes over the registry's dictionary while it deletes from it, which
Python refuses when it is to go on after a deletion.  Unless the other primary is overlooked,
it is removed, the main state becomes DISCONNECTED, nobody is added, and the exception ends
the process.

**Histories.**  The audit trail of a process stays current exactly when no setting changes
by what it leaves out alone (`StaysCurrentIff`, with `SilentReachable` as the example); with
full settings it always does, and any past time after the first change is covered by exactly
one row, which holds the setting then in force (`FullInForce`).  Pruning the
mail table at every check forgets nothing that counts.  The two mails of an outage go out
together exactly when the reconnection does not fall, unseen, on the very second of the
delayed look.  Log lines do not depend on how the text was cut into chunks.  Retention keeps
exactly the newest archived versions, and pruning exactly one of the others to a parent.  Disk
events are the changes of colour; an update fails for a volume of size zero that was not green
(`FailsIff`), since its percentage is computed.  What was read up to the last event before
that is stored with the event, except its own colour, so that the event is sent again
(`Survives`).

## Model

| member | source | states |
|---|---|---|
| Calendar.RoundTrip | controller/controller/croniter.py:328 | turning a record into seconds and back gives the record, so a time is found by its seconds |
| CivilDays.MonthStartClosed | controller/controller/croniter.py:370-374 | month by month the days add up to the usual closed form, which leaves leap years and month lengths no choice |
| CivilDays.ValidIs | controller/controller/croniter.py:31-33 | a date exists exactly when, in that count, it comes before the first of the next month |
| CivilDays.SecondsAre | controller/controller/croniter.py:264-267 | a record's seconds and weekday are those of the closed form, Sunday being 0 |
| CivilDays.ReadsAs | controller/controller/croniter.py:211 | a count of seconds is read as the date and time with that number |
| CronFields.FiresIsUnion | controller/controller/croniter.py:180-193 | a time fires the schedule when it matches either of the two expressions that restrict one day column only |
| CronFields.NextNearestDiff | controller/controller/croniter.py:346-354 | the loop returns the distance up to the first listed value that is not below x, or around the cycle to the first one |
| CronFields.NextDiffIsLeast | controller/controller/croniter.py:346-354 | that distance is the least number of ticks after which a cyclic counter shows a listed value, and none is listed before |
| CronFields.PrevNearestDiff | controller/controller/croniter.py:356-368 | the two loops return the distance down, wrapping to the greatest value below the limit |
| CronFields.PrevDiffIsLeast | controller/controller/croniter.py:356-368 | when all values are below the limit, that is the least number of ticks back to a listed value |
| CronNext.MonthStep | controller/controller/croniter.py:218-238 | a month step goes to the first moment of a later month, and no month in between is allowed |
| CronNext.DayStep | controller/controller/croniter.py:240-262 | a day step moves by the wrapped distance to midnight, with the length of the month the search began in |
| CronNext.WeekdayStep | controller/controller/croniter.py:264-276 | a weekday step goes to midnight of a later day, and no day in between has an allowed weekday |
| CronNext.HourStep | controller/controller/croniter.py:278-288 | an hour step goes to the start of a later hour, and no hour in between is allowed |
| CronNext.MinuteStep | controller/controller/croniter.py:290-299 | a minute step goes to the start of a later minute, and no minute in between is allowed |
| CronNext.SecondStep | controller/controller/croniter.py:301-310 | a second step goes to a later second, and no second in between is allowed |
| CronNext.DayDiff | controller/controller/croniter.py:240-262 | a day step moves forward, to a day no later than the last listed one |
| CronNext.StepAdvances | controller/controller/croniter.py:319-330 | every turn of the loop that changes the time moves it forward and keeps the invariant that makes the stale month length harmless |
| CronNext.StepStops | controller/controller/croniter.py:320-328 | when no column changes the time, every column allows it |
| CronNext.StepReaches | controller/controller/croniter.py:218-330 | no turn passes a matching time, except one of early March that a day step out of February can skip |
| CronNext.SkippedMeans | controller/controller/croniter.py:240-262 | a match that can be skipped is the 1st or 2nd of March, and the expression is of the family that skips |
| CronForward.MatchMeansSatisfiable | controller/controller/croniter.py:202-330 | an expression that matches any time has an allowed month long enough for its first listed day |
| CronForward.LaterMatch | controller/controller/croniter.py:202-330 | such an expression matches after every moment, on a day that cannot be skipped |
| CronForward.Search | controller/controller/croniter.py:319-328 | the loop ends, at a match no earlier than where it began |
| CronForward.SearchReaches | controller/controller/croniter.py:319-328 | the loop ends no later than any match that cannot be skipped |
| CronForward.NextIsLeast | controller/controller/croniter.py:202-330 | outside the skipping family the forward search returns the least match after now |
| CronForward.NextIsLeastIff | controller/controller/croniter.py:202-330 | it does so for every now exactly when the expression is not of that family |
| CronForward.Calc | controller/controller/croniter.py:202-330 | the loop terminates and returns the time so characterised |
| CronSchedule.NextTimeFiresNext | controller/controller/croniter.py:173-200 | outside the missing family get_next returns the least time after now at which the schedule fires, also when both day columns are restricted |
| CronSchedule.NextTimeFiresNextIff | controller/controller/croniter.py:173-200 | get_next is right at every moment exactly when the expression is not of the missing family |
| CronSchedule.MissWitness | controller/controller/croniter.py:180-191 | for every expression of that family with both day columns restricted there is a moment at which get_next passes a firing time |
| CronIterator.ScheduleEnumerates | controller/controller/croniter.py:158-164 | repeated get_next lists the firing times after now, in increasing order, none left out and none repeated |
| CronRetrace.StopMadeUp | controller/controller/croniter.py:180-193 | where the day search stops the schedule fires, or the weekday search comes to a later time |
| CronRetrace.StepMadeUp | controller/controller/croniter.py:180-330 | a step of the day search passes no match but one that the weekday search makes up for |
| CronRetrace.PrevTimeFiredLast | controller/controller/croniter.py:173-200 | outside the forgetting family get_prev returns, and only returns, the greatest firing time before the current minute (or second), also when both day columns are restricted |
| CronRetraceExact.ForgetsIsWrong | controller/controller/croniter.py:180-193 | each expression of that family with both day columns restricted has a moment at which get_prev returns a wrong time or never returns |
| CronRetraceExact.PrevTimeFiredLastIff | controller/controller/croniter.py:173-200 | get_prev is right at every moment exactly when the expression is not of the forgetting family |
| CronIterator.PrevUndoesNext | controller/controller/croniter.py:139-143 | from a firing time, get_next and then get_prev come back to it, and to no other time |
| CronIterator.Croniter.GetNext | controller/controller/croniter.py:173-200 | returns the next time and makes it the current one |
| CronIterator.Croniter.GetPrev | controller/controller/croniter.py:173-200 | from any moment at which the searches end, returns the later of their results and makes it the current time |
| CronIterator.Croniter.AllNext | controller/controller/croniter.py:158-164 | the first n values of the generator are the first n times of the schedule |
| CronPrev.MonthStep | controller/controller/croniter.py:218-238 | going back by months ends in the last second of a day of an earlier month |
| CronPrev.MonthReaches | controller/controller/croniter.py:218-238 | a month step back passes no allowed month, unless the expression skips December |
| CronPrev.DayStep | controller/controller/croniter.py:240-262 | a day step back moves by the wrapped distance, with the common-year length of the month before the one the search began in |
| CronPrev.WeekdayStep | controller/controller/croniter.py:264-276 | a weekday step back goes to the end of an earlier day, and no day in between has an allowed weekday |
| CronPrev.HourStep | controller/controller/croniter.py:278-288 | an hour step back goes to the end of an earlier hour, and no hour in between is allowed |
| CronPrev.StepKeeps | controller/controller/croniter.py:319-330 | without a fault every turn moves the time back and keeps the invariant |
| CronPrev.StepStops | controller/controller/croniter.py:320-328 | when no column moves the time back, every column allows it |
| CronPrev.StepReaches | controller/controller/croniter.py:240-330 | without a fault no turn passes a match; resetting the finer fields to their ends skips none |
| CronBackward.SearchBack | controller/controller/croniter.py:319-328 | without a fault the loop ends, at a match no later than where it began |
| CronBackward.PrevIsGreatest | controller/controller/croniter.py:202-330 | without a fault the backward search returns the greatest match before the current tick |
| CronBackward.CalcBack | controller/controller/croniter.py:202-330 | from any moment at which the loop ends, returns the time it ends at, faults or not |
| CronBackward.RunStopsOnce | controller/controller/croniter.py:319-328 | a run of the loop that ends, ends at one time only |
| CronBackwardExact.DecemberSkipped | controller/controller/croniter.py:356-368 | an expression that allows December, an earlier month and not January has a moment from which December is skipped |
| CronBackwardExact.LeapDaySkipped | controller/controller/croniter.py:230-234 | entering February on the 28th can pass a match on the 29th |
| CronBackwardExact.DayLost | controller/controller/croniter.py:240-258 | each of the day faults has a moment at which the search does not return the greatest match |
| CronBackwardExact.PrevIsGreatestIff | controller/controller/croniter.py:202-330 | the backward search returns, with the greatest match, at every moment exactly when the expression has none of the faults |
| CronExpand.PopShrinks | controller/controller/croniter.py:75-100 | popping a part and pushing the numbers of its range makes the worklist lighter, so the loop ends |
| CronExpand.ExpandColumn | controller/controller/croniter.py:71-137 | the loop returns the entries of the column in sorted order, or the first error met from the back |
| CronExpand.CountingIsCounted | controller/controller/croniter.py:100 | a range puts back exactly low, low + step, ... up to high |
| CronExpand.ItemsAreTheUnion | controller/controller/croniter.py:71-137 | the entries are exactly those that some part denotes after LOWMAP, and an error is raised exactly when some part is refused or out of range |
| CronColumns.NumberMeans | controller/controller/croniter.py:45-52 | a number stands for itself, day 0 and month 0 for 1, weekday 7 for 0; any other one out of range is refused |
| CronColumns.NameMeans | controller/controller/croniter.py:35-43 | the twelve months and seven weekdays, by name, stand for their numbers, in their own columns only |
| CronColumns.RangeMeans | controller/controller/croniter.py:84-100 | a range denotes every k-th value from its first bound up to its last, after LOWMAP, and is refused exactly when the last of them cannot be written in the column |
| CronColumns.ImproperRange | controller/controller/croniter.py:86-97 | a bound that is no number or name of the column, or Sunday's name, bounds in the wrong order, and a step that is 0 or no number are refused |
| CronColumns.PlainRangeMeans | controller/controller/croniter.py:84-100 | within the column's range `a-b` denotes the values from a to b and `a-b/k` every k-th of them |
| CronColumns.WildRangeMeans | controller/controller/croniter.py:77-80 | `*` with a step denotes every k-th value of the column from its least |
| CronColumns.ErrorIsOfLastRefused | controller/controller/croniter.py:86-129 | the error raised is that of the last part that is refused: a missing key for an unknown name, else a wrong value |
| CronParse.ColumnMeans | controller/controller/croniter.py:131-137 | the expanded column is sorted, within its range, and allows a value exactly when a part denotes it |
| CronParse.ReadableIff | controller/controller/croniter.py:133-136 | an expanded column has a reading exactly when it has a `*` and no number, or numbers alone |
| CronParse.ParseExpression | controller/controller/croniter.py:64-137 | five or six columns are expanded one by one; any other number, or an error in a column, is an error |
| CronParse.ParsedMatches | controller/controller/croniter.py:57-137 | a time matches the expanded expression exactly when each of its fields is denoted by a part of its column |
| CronParse.ParsedFires | controller/controller/croniter.py:57-193 | the schedule of a parsed expression fires when month and clock columns denote the time and, unless a day column has a `*`, either day column does |
| ProcessManager.ProcessManager.StartProcess | agent/processmanager.py:18-37 | makes the directory of an xid, and fails without a change when there is one |
| ProcessManager.ProcessManager.RemoveDir | agent/processmanager.py:39-41 | removes one directory and no other, and fails when there is none |
| ProcessManager.ProcessManager.IsDone | agent/processmanager.py:63-68 | a process counts as done when its return code is there or its directory is not |
| ProcessManager.ProcessManager.GetInfo | agent/processmanager.py:43-61 | reports running, or the exit status and output, and fails for a missing directory |
| ProcessManager.ProcessManager.HandleCli | agent/agent.py:77-114 | answers start, immediate start, status and cleanup, and changes the directories accordingly |
| CliSafety.SendMoves | controller/controller/cli_cmd.py:130-402 | a request under the lock leaves exactly one reply on the wire, the one to that request |
| CliSafety.ReceiveMoves | controller/controller/cli_cmd.py:163-205 | the reply a thread reads is its own, so what it takes from it is the state of its own process |
| CliSafety.StepKeeps | controller/controller/cli_cmd.py:81-413 | every step of every thread, of the agent and of the network keeps the protocol's invariant |
| CliSafety.RunKeeps | controller/controller/cli_cmd.py:81-413 | the invariant holds in every state of every run |
| CliSafety.PolledSuccess | controller/controller/cli_cmd.py:81-128 | a polled command that returns without an error has its own output, exit status 0, no directory left, and one cleanup after its last poll |
| CliSafety.AnsweredAtStart | controller/controller/cli_cmd.py:94-106 | a command returns without an error on the answer to its start exactly when that says its process has ended, with any exit status; its directory then stays exactly when it was not immediate |
| CliSafety.LeftBehind | controller/controller/cli_cmd.py:104-106 | a successful command leaves its directory behind exactly when it was not immediate and the answer to its start said that the process had ended; then it was neither polled nor cleaned up |
| CliSafety.AnyStatusReturns | controller/controller/cli_cmd.py:104-106 | for every exit status there is a run in which such a command returns without an error, and its directory stays unless it was immediate |
| CliSafety.StepsStayApart | controller/controller/cli_cmd.py:130-266 | a step changes the directory of one xid at most, that of the thread that holds the lock or of the process that ends |
| CliOutcome.PollAnswered | controller/controller/cli_cmd.py:385-402 | the answer to a poll: still running means another poll, ended with 0 means its own output, any other status an error |
| CliOutcome.CleanupAnswered | controller/controller/cli_cmd.py:119-128 | the answer to a cleanup lets the command return what the polls brought, and its directory is gone |
| CliOutcome.KillAnswered | controller/controller/controller.py:360-405 | the answer to a kill is a refusal, which costs the connection |
| CliOutcome.PolledSuccessIff | controller/controller/cli_cmd.py:108-128 | in every run a command found running at its start returns its output exactly when the last poll found status 0 and no request, the cleanup among them, failed |
| CliOutcome.AnyOutputReturns | controller/controller/cli_cmd.py:108-128 | for every way a process can end there is a run in which it is polled, cleaned up and returned as success or error by its status |
| CliOutcome.TimedOutStays | controller/controller/cli_cmd.py:299-311 | in every run a command that ran out of time is an error, has cost the connection, and leaves its directory behind |
| CliOutcome.TimedOutReachable | controller/controller/cli_cmd.py:299-311 | a run in which that happens while the process still runs |
| CliPolling.NotForever | controller/controller/cli_cmd.py:294-311 | a poll in pass k means that k sleeps fit into the timeout |
| CliPolling.GetCliStatus | controller/controller/cli_cmd.py:294-413 | the loop stops in the first pass that is late, disconnected or finds the process not running, and answers by which of these it was and by the exit status, after at most floor(timeout / interval) + 1 polls |
| CliPolling.BoundIsMet | controller/controller/cli_cmd.py:294-413 | that bound is attained by a process that outlives the timeout |
| UserSafety.FitsAdvance | controller/controller/clihandler.py:642-2083 | a step of any action leads where its next step finds the state it expects |
| UserSafety.StepKeeps | controller/controller/clihandler.py:642-2842 | every step of every session keeps the invariant of lock, main state and history |
| UserSafety.OneAtATime | controller/controller/agentmanager.py:138-142 | at most one session is between lock and unlock, and it owns the re-entrant lock once |
| UserSafety.TakenInTurn | controller/controller/clihandler.py:669-757 | the lock is taken and let go of in turn, once each, by the same session; every action leaves the state it is to leave, having sent the start of its plan, and the next one finds that state |
| UserSafety.PutBack | controller/controller/clihandler.py:669-757 | backup, file deletion, log collection and cleanup leave the main state they found |
| UserSafety.UnderWay | controller/controller/clihandler.py:1828-2083 | the main state is transitional exactly when the lock's holder is at it, or the last stop, failed restart or successful restore was not followed by a status check that recorded anything |
| UserSafety.AtRestWhenFree | controller/controller/clihandler.py:1757-1824 | among backups, deletions, log collections, cleanups and starts the main state is at rest whenever the lock is free |
| UserSafety.WorkIsShown | controller/controller/clihandler.py:792-815 | while an action does its work it was admitted by the state it found, and the main state names it |
| UserSafety.RestoreOrder | controller/controller/controller.py:515-563 | a restore is sent after exactly the license check, backup and stop asked for, each successful; a stop is among them exactly when the server was reported running |
| UserSafety.FailedRestorePutsBack | controller/controller/clihandler.py:1103-1147 | when a restore comes to its status check it has succeeded, or has put back the main state read under the lock |
| UserSafety.ComesToRelease | controller/controller/clihandler.py:642-2842 | every path of every action reaches its unlock within fifteen steps |
| UserSafety.StopLeavesStopping | controller/controller/clihandler.py:2010-2083 | a stop whose status check records nothing leaves STOPPING with the lock free |
| UserSafety.DegradedIsNotStopped | controller/controller/controller.py:533-547 | a restore is sent to a server that is reported degraded without a stop before it |
| UserCommands.CliHandler.DoBackup | controller/controller/clihandler.py:669-757 | refused when another session has the lock; otherwise exactly the steps of a backup, and the lock is as it was |
| UserCommands.CliHandler.DoMarked | controller/controller/clihandler.py:792-815 | the same for file deletion, log collection and cleanup |
| UserCommands.CliHandler.DoStart | controller/controller/clihandler.py:1757-1824 | the same for a start |
| UserCommands.CliHandler.PreStop | controller/controller/clihandler.py:1828-1936 | either ends the action, with the lock let go of, or leaves it about to mark its main work with the lock held |
| UserCommands.CliHandler.DoStop | controller/controller/clihandler.py:2045-2083 | the same for a stop |
| UserCommands.CliHandler.DoRestart | controller/controller/clihandler.py:1965-2006 | the same for a restart |
| UserCommands.CliHandler.RestoreLocal | controller/controller/controller.py:515-563 | the steps from the second status reading to the restore command; stops a running server first |
| UserCommands.CliHandler.RestoreCmd | controller/controller/controller.py:566-619 | the steps from fetching the file to the status check; puts the main state back when one fails |
| UserCommands.CliHandler.DoRestore | controller/controller/clihandler.py:985-1147 | the same for a restore |
| UserCommands.PerformedLeaves | controller/controller/clihandler.py:642-2842 | an action carried through sends the start of its plan, nothing after a failure, and leaves the main state it is to leave |
| UserCommands.PerformedRests | controller/controller/clihandler.py:1828-2083 | an action that finds the server at rest leaves a transitional state exactly when it ends in a stop, a failed restart or a successful restore and the status check that follows records nothing |
| UserDeeds.CourseIsDeeds | controller/controller/clihandler.py:642-2842 | the steps of each action come to the states it sets and the commands it has carried out as written out case by case, in order |
| UserDeeds.PerformedDeeds | controller/controller/clihandler.py:642-2842 | an action carried through does just that, leaves the state it set last and has sent the commands among its deeds |
| UserDeeds.PerformedSends | controller/controller/clihandler.py:642-2842 | an action whose found state, file and reported status admit it sends its commands up to the first that fails, all of them when none does; any other sends and changes nothing |
| AgentRegistry.Registry.RemoveAgent | controller/controller/agentmanager.py:969-1030 | removes the agent's connection and marks the main state for a primary; a stale connection changes nothing |
| AgentRegistry.Registry.Enter | controller/controller/agentmanager.py:235-305 | removes what the search over the live dictionary meets; adds the agent, and marks the main state for a primary, unless the search raises |
| AgentRegistry.RaisesIff | controller/controller/agentmanager.py:262-281 | the search raises exactly when a new primary meets another one before any agent with its own uuid, and that one is gone then |
| AgentRegistry.NeverTakesOver | controller/controller/agentmanager.py:258-281 | with another primary connected, either it is overlooked or the search raises: just that one is removed, the main state is DISCONNECTED, nobody is added |
| AgentRegistry.EntersInPlace | controller/controller/agentmanager.py:258-305 | with no other primary in the way, the agent is added in place of the one with its uuid, and every other one stays |
| AgentRegistry.EnteredMain | controller/controller/agentmanager.py:258-297 | a registration leaves PENDING for a primary that was added, DISCONNECTED when the search raised or a primary gave way to another type, and else the main state it found |
| AgentRegistry.EnteredKeepsIff | controller/controller/agentmanager.py:258-300 | a registration, raising or not, keeps unique uuids, one primary and the state's meaning exactly when no primary is overlooked |
| AgentRegistry.SameTypeSuffices | controller/controller/agentmanager.py:258-281 | no primary is overlooked unless the new primary's uuid was connected as another type |
| AgentRegistry.OverlookedReachable | controller/controller/agentmanager.py:258-281 | a run in which a primary is overlooked and two are connected afterwards |
| AgentRegistry.LateRemoval | controller/controller/agentmanager.py:986-1026 | removing an agent that gave way, or that a raising search has removed, changes neither registry nor state |
| AgentRegistry.RunKeeps | controller/controller/agentmanager.py:235-1030 | every run of registrations, raising ones among them, and removals keeps the registry's invariant while no primary is overlooked |
| AlertAudit.AlertSettings.UpdateAll | controller/controller/alert_setting.py:73-90 | applies all settings in one transaction, or none when a process has no entry |
| AlertAudit.HistoryOfLog | controller/controller/alert_audit.py:21-52 | logging closes the latest row of the key at the time the new one opens, and touches no other key |
| AlertAudit.UpdateByKey | controller/controller/alert_setting.py:73-90 | a call with distinct process names treats each key by itself |
| AlertAudit.LogsIff | controller/controller/alert_setting.py:66-88 | a setting logs a row exactly when a value it gives is not the present one, so an unchanged full setting logs none; what it leaves out is cleared |
| AlertAudit.StaysCurrentIff | controller/controller/alert_setting.py:66-90 | the open row stays equal to the setting exactly when the setting does not change by what it leaves out alone |
| AlertAudit.RunKeeps | controller/controller/alert_audit.py:21-52 | in every run the rows of a key form a gap-free chain whose one open row is the current setting |
| AlertAudit.InForce | controller/controller/alert_audit.py:21-52 | any time after the first change is covered by exactly one row, with the setting then in force |
| AlertAudit.FullInForce | controller/controller/alert_setting.py:73-90 | in every run of calls whose settings give all four values, the open row is the current setting and every time after the first change is covered rightly |
| AlertAudit.SilentReachable | controller/controller/alert_setting.py:66-90 | a run of two calls after which the open row is not the current setting |
| EmailLimit.EmailLimiter.LimitReached | controller/controller/email_limit.py:64-107 | logs, prunes and counts; reports the count, raises the event and turns alerts off exactly when it is over the limit, and leaves exempt mails alone |
| EmailLimit.TableIsWindow | controller/controller/email_limit.py:44-57 | after any number of prunes the table holds exactly the mails of the lookback period |
| EmailLimit.PermittedIff | controller/controller/email_limit.py:85-107 | a mail is held back exactly when more than the limit were asked for in the period that ends with it |
| EmailLimit.WindowIsLimited | controller/controller/email_limit.py:64-107 | no closed window of the lookback length holds more permitted mails than the limit |
| MuteWindow.DisconnectThread.Wake | controller/controller/alert_email.py:280-305 | in a history, the thread of an outage sends exactly when the outage is longer than M, or ends unseen on the second of the look |
| MuteWindow.MuteReconnectCheck | controller/controller/alert_email.py:211-240 | in a history, the check at the end of an outage sends exactly when it was longer than M |
| MuteWindow.DisconnectSentIff | controller/controller/alert_email.py:257-305 | in every history the "disconnected" mail goes out exactly when the outage is longer than M, or ends unseen on the second of the look |
| MuteWindow.ReconnectSentIff | controller/controller/alert_email.py:211-240 | the "reconnected" mail goes out exactly when the outage was longer than M |
| MuteWindow.TogetherIff | controller/controller/alert_email.py:192-305 | both go out or neither, exactly when the reconnection is not unseen on that second |
| StreamLogger.StreamLogger.Write | controller/controller/controller.py:1474-1481 | the loop over split lines has the effect of feeding the characters one by one |
| StreamLogger.StreamLogger.Flush | controller/controller/controller.py:1486-1488 | logs what is buffered, if it is not blank, and empties the buffer |
| StreamLogger.SplitLinesSound | controller/controller/controller.py:1477 | the split lines join to the text, and all but the last end in one line break |
| StreamLogger.ChunksDoNotMatter | controller/controller/controller.py:1474-1488 | writing a text in any chunks is writing it whole |
| StreamLogger.FlushedLog | controller/controller/controller.py:1466-1488 | after a flush the log shows the non-blank pieces between line breaks, in order |
| StreamLogger.ShownIs | controller/controller/controller.py:1466-1472 | a line is shown up to its last character that is no blank, with the tag in brackets before it, and not at all when it is blank |
| StreamLogger.PiecesAre | controller/controller/controller.py:1474-1481 | a text is cut at every line break character and nowhere else |
| Retention.Archive.Prune | controller/controller/extract_archive.py:280-309 | removes the unarchived versions that have a later one, and counts them |
| Retention.OneIsLeft | controller/controller/extract_archive.py:280-309 | a parent that had unarchived versions has its latest left, just one when ranks differ, and all its archived ones |
| Retention.PrunedMeans | controller/controller/extract_archive.py:280-309 | an unarchived version goes exactly when there is a later unarchived one of its parent |
| Retention.RetainsMeans | controller/controller/datasources.py:282-333 | no version that is left is older than one of its parent that has gone, only archived ones go, and min(n, k) are left |
| Retention.FilesGone | controller/controller/extract_archive.py:367-379 | a file goes exactly when a row that goes points to it |
| Retention.Archive.RetainOne | controller/controller/extract_archive.py:358-379 | removes the excess oldest archived versions of one parent with their files |
| Retention.Archive.RetainSome | controller/controller/datasources.py:282-333 | leaves of each parent the newest min(n, k) archived versions and every unarchived one, and returns the sum of the excesses |
| Retention.NewestIsUnique | controller/controller/extract_archive.py:360-365 | with distinct ranks that leaves no choice of rows |
| DiskEvents.AgentVolumes.Update | controller/controller/agentmanager.py:583-697 | merges each reading into its row, sends an event when its colour is news and stores the rows with it; fails for a size of zero, with what was stored by then |
| DiskEvents.EventsAreChanges | controller/controller/agentmanager.py:643-691 | the events of a volume are its colours, with green assumed before the first and repeats dropped |
| DiskEvents.ChangesAlternate | controller/controller/agentmanager.py:643-655 | no colour comes twice in a row, and the first is not green |
| DiskEvents.ColorIsMonotone | controller/controller/agentmanager.py:732-737 | more used space never gives a better colour |
| DiskEvents.ColorMeans | controller/controller/agentmanager.py:732-737 | red above the upper limit in percent of the size in use, yellow from there down to the lower one, else green |
| DiskEvents.RowsAreReported | controller/controller/agentmanager.py:595-640 | in every run of reports a row holds the last size and the last available space reported for its volume |
| DiskEvents.StoredRows | controller/controller/event_control.py:420-487 | what is stored in the course of an update is what was reported up to its last event, that reading included, in the rows of the volumes known before it |
| DiskEvents.FailsIff | controller/controller/agentmanager.py:652-654 | a reading of size zero fails exactly when the volume's last event was not green |
| DiskEvents.StoredUpToEvent | controller/controller/event_control.py:420-487 | in the course of an update, what is stored is what was read up to the last event sent, but for its colour and its row if that is new |
| DiskEvents.Survives | controller/controller/agentmanager.py:643-691 | after a failure every volume's stored colour is that of its last event, except for the last event sent, which the next reading of that colour sends again |

## Left out

- CronBackward.CalcBack: asks that the loop ends from this moment, because with a fault the original may run for ever; `Run` describes its turns either way. The same goes for `get_prev`.
- CronForward.Calc: asks for a satisfiable expression; for one like 30 February the original loops until the calendar ends. Years are unbounded here, 1 to 9999 there.
- CronExpand.ExpandColumn: starts from the parts of a column (number, name, range, `*`); splitting the text, letter case and the regular expressions are not part of this model. Neither is `l`, nor `*` mixed with other values, beyond being entries of an expanded column.
- Time zones, daylight saving, `mktime` and fractions of a second: one proleptic Gregorian line of whole seconds.
- CliSafety.PolledSuccess: `prun` puts the return code in place last, so a directory with one has its whole output, and `pid` and `cmd` files are left out.
- Connections: sockets, TLS, HTTP and JSON are a sequence of replies that any request may fail to get; a lost connection stays lost, and the next one is another run.
- Exceptions that no handler catches end the controller process, so they end a run.
- UserSafety.UnderWay: a status check may record any of STARTED, DEGRADED, STOPPED, STOPPED-UNEXPECTED or nothing; which one is not modelled. Agent loss during an action is not modelled.
- UserCommands.CliHandler.DoRestore: an exception raised after a successful restore command, by the deletion of the fetched file, counts as a failure of the restore, as it does for the main state in the original.
- `do_support_case`, `do_restore_url` and maintenance commands, which use the lock in other ways, and the events and alerts sent along the way.
- AgentRegistry.Registry.Enter: display names, reclassification of archive agents as workers, and connection ids that wrap around are not modelled; an agent has its database row before it registers. The order in which the dictionary lists its keys is any order.
- AgentRegistry.RunKeeps: the exit of the process after a search that raises; runs that go on after it only add states.
- AlertAudit.RunKeeps: commit times rise strictly and process names are distinct within a call, as the web form submits them; rows of one transaction share one time.
- EmailLimit.EmailLimiter.LimitReached: one environment, limits that do not change between two resets of the table, checks that do not overlap.
- MuteWindow.DisconnectSentIff: the delayed look is exactly M seconds after the disconnection, the reconnection check at the reconnection.
- StreamLogger.StreamLogger.Write: byte strings, whose only line breaks are `\n`, `\r` and `\r\n`; unicode strings have more.
- Retention.Archive.RetainSome: whether a file is really deleted; the original counts the removal either way.
- DiskEvents.AgentVolumes.Update: volume types, archive limits, labels, which volumes are active, and agents that are switched off, whose events are dropped. Watermarks are reals, not floats.
- `file_rotate`, the status monitor's choice of state, disk checks, caches, authentication, cloud storage, the web application: they would only add easy members, or are plumbing.
