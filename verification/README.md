# HR workflow verification

A Dafny model of the stateful core of an HR backend: leave balances, refresh
tokens, work-schedule changes, pay rows, approval chains and timesheets. Each
service that changes state is a class whose methods make the same writes in the
same order, refused by the same table constraints, and is proved equal to a
specification function; the theorems are about those functions, over every input
and every run.

- **Leave ledger.** A balance is derived from grants and requests, never stored.
  `LedgerProtocol` runs every submit as separate steps (lock the grant rows one
  by one, sum, read, check, insert, commit) against all other operations and
  shows that no balance is overdrawn, and what the lock does not protect.
  `LeaveEdits` says what HR edits break and what they repair.
- **Refresh tokens.** `RotationProtocol` interleaves the guard, the atomic
  revoke and the later issue (the rotation scheme of section 4.14.2 of RFC 9700,
  over the `exp` and `jti` claims of sections 4.1.4 and 4.1.7 of RFC 7519);
  `RefreshTokens` compares runs with and without pruning.
- **Schedule changes.** `SchedulePolicy`, `ScheduleVersioning` and
  `ScheduleChange` decide, version and cancel.
- **Pay.** `PayTable`, `PayTimeline`, `PayBulk` and `CompensationService`: the
  effective-dated chain, bulk writes and the audit trail.
- **Approval.** `ApprovalMachine` is the two-step state machine of leave and
  corrections, `ChainTable` and `ApprovalChains` who the approvers are,
  `SeedAssignments` the round-robin allocator, `CorrectionApproval` the two
  writes of a correction's approval.
- **Timesheet.** `TimeEntries` and `PunchProtocol`.
- **Dates and clocks.** `Calendar` (ECMA-262, section 21.4.1, printed as the
  full-date of RFC 3339, section 5.6), `ClockTime`, `HalfDay`, `DayCount`,
  `SeedLeaveRows`.

Units: a date is its day number, a clock time seconds of the day, leave is
counted in half-days, salaries in centavos, hourly rates in ten-thousandths,
punches in milliseconds. A table is a sequence of rows and a row's position is
its id. Query results whose order the database leaves open are parameters that
may be any listing of the matching rows. Today, now, new token ids and the user
directory are parameters.

`dafny verify dfyconfig.toml` checks everything.

## What turned out false

- A submit's overlap check runs before its transaction. Two submits of one employee that
  have both passed it end overlapping in some run if and only if their ranges overlap and
  the balance covers both: `LedgerProtocol.InterleavedSubmitsOverlapExactly`, with the run
  in `LedgerProtocol.InterleavedSubmitsMayOverlap` and inputs in `LedgerProtocol.OverlapExample`.
  `LedgerProtocol.SerialEmployeesNeverOverlap` is what is enough.
- A stored half-day does not always reload. `HalfDay.StoredHalfReloads` gives the
  exact condition, `HalfDay.OneSecondScheduleDoesNotReload` a schedule without it.
  Such a request can be submitted (`LeaveService.SubmittedReloadsExactly`), and nobody can
  approve, reject or cancel it (`LeaveEdits.UnloadableStays`) until HR edits it to a whole
  day or a weekday with enough work: `LeaveEdits.LoadsAgainExactly`, with a run in
  `LeaveEdits.HealedExample`.
- HR edits of pending leave check neither the balance nor other requests. They are the only
  uninterleaved calls that can overdraw or overlap, and exactly those do that
  `LeaveEdits.RunsOverdrawExactly` and `LeaveEdits.RunsOverlapExactly` name;
  `LeaveEdits.EditBreaksBoth` is one edit that does both.
- A logout does not end a rotation that has revoked its old token and not yet
  issued the new one: `RotationProtocol.LogoutLastsUnlessMinting` is exact,
  `RotationProtocol.LogoutExample` a run.
- Pruning is visible if and only if it reaches the row of an accepted, still active token
  between its guard and its rotation: `RotationProtocol.PruneIsVisibleExactly`, one step
  in `RotationProtocol.PruneBetweenGuardAndRotation`, a run in
  `RotationProtocol.PrunedRotationExample`.
- Bulk assignment is not the single call for each: it never looks the employees up, so a
  soft-deleted one gets a chain that the single call refuses
  (`ApprovalChains.SoftDeletedIsAssignedInBulk`). The two agree if and only if everybody
  unskipped is found: `ApprovalChains.BulkAssignIsSetEachExactly`.
- A correction that moves a pay row's start opens a gap or an overlap unless the
  row is the employee's first: `PayTimeline.MovedStartKeepsTimelineExactly`,
  `PayTimeline.MovedStartExample`.
- The comment on the correction approval says that the timesheet write and the
  status flip commit together (`src/time-entries/time-entries.service.ts:207-212`);
  the code makes two writes. After a stop between them the approval can be repeated at once if
  and only if the correction has a target (`CorrectionApproval.RetryAfterStopExactly`), and
  later if and only if the window is valid and the timesheet allows it (`CorrectionApproval.FinalApprovalExactly`).
- Self-punches need not alternate five minutes apart. Two punches of one employee in flight
  at once break it, unless both have found no open entry:
  `PunchProtocol.OverlapDerailsExactly` and, over runs, `PunchProtocol.RunDerailsExactly`,
  with a run in `PunchProtocol.RaceExample`. So do admin writes and corrections, exactly
  those that `TimeEntries.WriteDerailsExactly` names; `TimeEntries.DeletionBreaksThePauses`
  is one.

## Model

| member | source | states |
|---|---|---|
| Text.PadOrder | src/compensation/domain/compensation.aggregate.ts:70-80 | Zero-padded numbers of one width compare as strings exactly as they do as numbers, which the string comparisons of dates and times rely on |
| Calendar.SteppingIsSuccessor | src/utils/helpers/dates.ts:38-54 | Stepping a civil date forward or back by one is adding or subtracting one day number, and the two steps undo each other |
| Calendar.FromDayInverse | src/utils/helpers/dates.ts:33-36 | Day numbers and civil dates are inverse to each other over the whole Gregorian calendar |
| Calendar.DateStringOrder | src/utils/helpers/dates.ts:13-31 | For years 0000 to 9999 two date strings compare as text exactly as their day numbers do, and equal text means equal date |
| Calendar.DatesInRangeLoop | src/utils/helpers/dates.ts:45-54 | The pushing loop terminates and lists every date of the inclusive range once, in order (none when the end precedes the start) |
| ClockTime.ParsePrint | src/utils/helpers/time-of-day.ts:8-21 | Parsing a printed clock time gives the seconds back |
| ClockTime.PrintParse | src/utils/helpers/time-of-day.ts:8-21 | Printing a parsed fixed-width clock time gives the text back |
| ClockTime.ClockOrder | src/leave-requests/domain/value-objects/half-day-window.ts:16-31 | The string comparison of two fixed-width clock times is the comparison of the times |
| HalfDay.HalvesTile | src/leave-requests/leave-day-count.service.ts:135-152 | For every valid schedule the two stored halves tile the window from in to out, and the whole break lies in one of them |
| HalfDay.HalvesShareTheWork | src/leave-requests/leave-day-count.service.ts:135-152 | Each half holds half of the work time: exactly when it is an even number of seconds, within half a second otherwise |
| HalfDay.SplitIsEarliest | src/leave-requests/leave-day-count.service.ts:135-152 | The halves meet at the first instant with half of the work behind it, so a break that starts just there belongs to the second half |
| HalfDay.StoredHalfReloads | src/leave-requests/domain/value-objects/half-day-window.ts:16-31 | Both stored halves pass the reload check if and only if the schedule has enough work to keep their ends apart |
| HalfDay.OneSecondScheduleDoesNotReload | src/leave-requests/leave-day-count.service.ts:135-152 | The failing family has a member: a valid schedule with one second of work stores a half that its own reload check refuses |
| DayCount.CountAgainstLoop | src/leave-requests/leave-day-count.service.ts:159-166 | The millisecond-stepping loop terminates and counts the scheduled days of the range |
| DayCount.CountsTheListedDates | src/utils/helpers/dates.ts:45-54 | The two date loops agree: the count is the number of listed dates whose weekday is scheduled |
| DayCount.CountSplits | src/leave-requests/leave-day-count.service.ts:159-166 | Splitting a range anywhere splits its count |
| DayCount.CountOfAWeek | src/leave-requests/leave-day-count.service.ts:154-166 | Any seven consecutive days hold each scheduled weekday exactly once |
| DayCount.CountBounds | src/leave-requests/leave-day-count.service.ts:159-166 | n days with k scheduled weekdays count between k times floor(n/7) and k times ceil(n/7) |
| DayCount.AcceptedRangesCharge | src/leave-requests/leave-day-count.service.ts:82-123 | A range is accepted if and only if it is ordered, not in the past, starts and ends on scheduled days and obeys the half-day rules; an accepted one charges half a day or its (at least one) scheduled days |
| DayCount.RefusedRangesSayWhy | src/leave-requests/leave-day-count.service.ts:82-117 | Each rule is the one reported if and only if it is broken and no earlier one is |
| DayCount.AcceptedHalfDaysReload | src/leave-requests/leave-day-count.service.ts:107-117 | The clock window of an accepted half-day reloads whenever its schedule row has enough work |
| ApprovalMachine.ApprovalAggregate.ApproveStep | src/leave-requests/domain/leave-request.aggregate.ts:181-250 | Guards, approver-activity check and transition in source order have exactly the effect of the approve function; a refusal changes nothing |
| ApprovalMachine.ApprovalAggregate.RejectStep | src/leave-requests/domain/leave-request.aggregate.ts:252-271 | Same for reject, including the non-blank note |
| ApprovalMachine.ApprovalAggregate.CancelStep | src/leave-requests/domain/leave-request.aggregate.ts:273-291 | Same for cancel; leave may be cancelled while active and not over |
| ApprovalMachine.ApproveExactly | src/leave-requests/leave-requests.service.ts:353-390 | Approve succeeds if and only if the request is pending, the actor is an override holder or the snapshotted approver of the step with the right to approve, and a chain step's approver is active; each refusal and everything written is stated |
| ApprovalMachine.RejectExactly | src/leave-requests/domain/leave-request.aggregate.ts:252-271 | The same for reject, with a note that is not blank instead of the activity check |
| ApprovalMachine.CancelExactly | src/leave-requests/domain/leave-request.aggregate.ts:273-291 | Cancel succeeds if and only if the actor is the employee, a system admin or may delete, and the leave is active and not over or the correction pending |
| ApprovalMachine.ProgressOrNothing | src/time-correction-requests/domain/time-correction-request.aggregate.ts:207-276 | Every call, on leave or correction, changes nothing or moves strictly closer to the end, and never touches the snapshotted approvers |
| ApprovalMachine.TerminalIsForever | src/leave-requests/domain/leave-request.aggregate.ts:197-201 | Over every run rejected and cancelled are never left |
| ApprovalMachine.HistoryExplainsStatus | src/leave-requests/domain/leave-request.aggregate.ts:168-291 | Over every run: at most three transitions; pending at L2 only after the L1 approver decided on the chain path; chain-approved with an L2 snapshot only after L1 and then L2; anything else approved by an override holder; rejected, with a note, by one who may decide that step; cancelled by the employee, by HR or by the cascade, whom the row names |
| LeaveTables.SystemCancelFrees | src/leave-requests/persistence/repositories/leave-request.repository.ts:136-162 | A system cancel lowers the consumption of every employee and type by exactly what the cancelled active rows charged |
| LeaveTables.ReloadsExactly | src/leave-requests/domain/leave-request.aggregate.ts:68-99 | A row can be loaded if and only if its range is ordered and it has times, in order, exactly on a half day |
| LeaveTables.ActionsNeverCharge | src/leave-requests/leave-requests.service.ts:286-301 | No approve, reject or cancel ever charges more |
| LeaveTables.ConsumedByStatus | src/leave-requests/persistence/repositories/leave-request.repository.ts:232-249 | The direct consumed sum is the sum over the three active statuses |
| LeaveTables.WorkingDaySums | src/leave-requests/persistence/repositories/leave-request.repository.ts:208-230 | Whatever order the groups arrive in, used plus reserved equals the direct consumed sum for every type |
| LeaveTables.SumsByEmployee | src/leave-allocations/persistence/repositories/leave-allocation.repository.ts:37-49 | Whatever order the groups arrive in, the filled map is the allowance of every type |
| LeaveTables.ForEmployee | src/leave-requests/leave-balance.service.ts:24-40 | One balance per type; available plus used plus reserved equals the allowance if and only if consumption is within it, so the floor bites in no other state |
| LeaveService.PreparedRows | src/leave-requests/leave-requests.service.ts:95-150 | A row that passes the checks before the transaction is the submitted request, pending at L1 with the snapshotted approvers, charging at least half a day and overlapping no active request of the employee |
| LeaveService.OverlapIsASharedDate | src/leave-requests/persistence/repositories/leave-request.repository.ts:74-93 | The overlap comparison holds of two ordered ranges if and only if some date lies in both |
| LeaveService.PreparedTimes | src/leave-requests/leave-day-count.service.ts:104-122 | A prepared full day stores no times, a half day those of its half of that weekday's window |
| LeaveService.RefusedSubmitsSayWhy | src/leave-requests/leave-requests.service.ts:95-173 | Each refusal of a submit is reported if and only if it is due and no earlier check fails; a clash names an active request of the employee with a date in common, a short balance what is left and what is needed |
| LeaveService.SubmitSucceedsExactly | src/leave-requests/leave-requests.service.ts:95-173 | A submit succeeds if and only if the file fits the type, the range and half-day rules hold, an approver is assigned, no date lies in both the range and an active request of the employee, and the charge is available; it then charges that |
| LeaveService.LeaveRequestsService.SumAllocations | src/leave-allocations/persistence/repositories/leave-allocation.repository.ts:51-68 | The reduce over the locked rows is the allowance |
| LeaveService.LeaveRequestsService.SumConsumed | src/leave-requests/persistence/repositories/leave-request.repository.ts:232-249 | The query sum is the consumption of the active requests |
| LeaveService.LeaveRequestsService.Submit | src/leave-requests/leave-requests.service.ts:95-215 | Submit appends exactly the decided row or changes nothing and reports the first failing check |
| LeaveService.LeaveRequestsService.Approve | src/leave-requests/leave-requests.service.ts:353-390 | Load, approve and save have the effect of the state machine on that one row; a row whose half-day window does not reload is refused and nothing changes |
| LeaveService.LeaveRequestsService.Reject | src/leave-requests/leave-requests.service.ts:392-410 | Same for reject |
| LeaveService.LeaveRequestsService.Cancel | src/leave-requests/leave-requests.service.ts:286-302 | Same for cancel |
| LeaveService.LeaveRequestsService.Update | src/leave-requests/leave-requests.service.ts:304-346 | The HR edit in source order: pending rows only, no half-day check on loading; an edit of dates, portion or type runs the date rules again and rewrites the charge and the window |
| LeaveService.LeaveRequestsService.Grant | src/leave-allocations/domain/value-objects/allocation-amount.ts:15-24 | A grant appends a positive amount and nothing else |
| LeaveService.SubmittedReloadsExactly | src/leave-requests/domain/value-objects/half-day-window.ts:16-31 | A request just submitted can be loaded again if and only if its weekday has enough work for the half asked for |
| LeaveEdits.EditSucceedsExactly | src/leave-requests/leave-requests.service.ts:304-346 | An edit goes through if and only if the request is pending and, when it touches dates, portion or type, the new range obeys the rules of a submit; it then writes the fields sent, charges what a submit of that range would and touches nothing of the approval |
| LeaveEdits.CallKeepsRangesOrdered | src/database/migrations/1778400000000-CreateLeaveRequestsTable.ts:58-59 | Every call keeps the ranges of the table ordered, as its check demands |
| LeaveEdits.GrantsAreAppended | src/leave-allocations/domain/value-objects/allocation-amount.ts:15-24 | A grant adds one row and changes nothing else |
| LeaveEdits.RunsOverlapExactly | src/leave-requests/leave-requests.service.ts:95-346 | Over every run of submits, grants, decisions, cancels and edits that do not interleave, no date ever lies in two active requests of one employee if and only if no edit of the run writes a range with a date of another active request of the employee |
| LeaveEdits.RunsOverdrawExactly | src/leave-requests/leave-requests.service.ts:95-346 | Over every such run no balance is ever overdrawn if and only if no edit of the run writes a charge that does not fit beside the other requests of its type |
| LeaveEdits.EditBreaksBoth | src/leave-requests/leave-requests.service.ts:304-346 | A concrete edit by one day that overdraws the balance and overlaps another request |
| LeaveEdits.EditedReloadsExactly | src/leave-requests/leave-requests.service.ts:304-346 | After an edit that recomputes, the request can be loaded if and only if its portion is full or its weekday has enough work for the half |
| LeaveEdits.UnloadableStays | src/leave-requests/domain/leave-request.aggregate.ts:68-99 | Over every run in which no edit heals it, a request that cannot be loaded stays so, and without a system cancel its status and decision fields stay as they are: nobody approves, rejects or cancels it |
| LeaveEdits.LoadsAgainExactly | src/leave-requests/leave-requests.service.ts:286-410 | Over every run it can be loaded again at some moment if and only if some edit of the run gave it a whole day or a weekday with enough work |
| LeaveEdits.HealedExample | src/leave-requests/leave-requests.service.ts:286-390 | A half-day of a one-second schedule: the approval is refused, HR makes it a whole day, the approval succeeds |
| LedgerProtocol.NeverOverdrawn | src/leave-requests/leave-requests.service.ts:152-200 | Under every interleaving of submit steps (check and upload, open the transaction, lock row by row, sum, read, check, insert, commit) with grants, approvals, rejections, cancels and cascades, used plus reserved never exceeds the allowance of any employee and type |
| LedgerProtocol.SameKeyExcludes | src/leave-allocations/persistence/repositories/leave-allocation.repository.ts:51-68 | Of two transactions of one employee and type past their locks, one summed no allowance at all |
| LedgerProtocol.UngrantedSubmitsAreRefused | src/leave-requests/leave-requests.service.ts:157-173 | A submit whose locking statement matched no row locks nothing and is refused at its check, whatever is granted meanwhile |
| LedgerProtocol.UnlockedSubmitsComplete | src/leave-requests/leave-requests.service.ts:156-200 | A transaction whose grant rows nobody holds can always run to its end, with the outcome the balance check dictates |
| LedgerProtocol.UndisturbedProtocolIsSubmit | src/leave-requests/leave-requests.service.ts:95-215 | Run alone, the protocol does to the tables exactly what the submit use-case does |
| LedgerProtocol.OtherStepsAreTheCalls | src/leave-requests/leave-requests.service.ts:286-410 | The other steps of the protocol are the calls of the service and the cascade, possible at any moment and blind to the transactions |
| LedgerProtocol.RollbackLeavesNothing | src/leave-requests/leave-requests.service.ts:201-205 | A transaction may be rolled back at any moment and leaves neither rows nor locks |
| LedgerProtocol.InterleavedSubmitsMayOverlap | src/leave-requests/leave-requests.service.ts:128-138 | The overlap check runs before the transaction: any two overlapping submits of one employee that the balance covers together can both commit, whatever their types |
| LedgerProtocol.InterleavedSubmitsOverlapExactly | src/leave-requests/leave-requests.service.ts:128-200 | Of two submits of one employee that have both passed the check, some run of the two ends with a date in two active requests if and only if some date lies in both ranges and the balance covers both (their sum for one type, each alone for two types) |
| LedgerProtocol.OverlapExample | src/leave-requests/leave-requests.service.ts:128-138 | A concrete run: the same Monday of vacation submitted twice, both committed |
| LedgerProtocol.SerialEmployeesNeverOverlap | src/leave-requests/leave-requests.service.ts:128-138 | While each employee submits one request at a time, no date lies in two active requests of one employee, under any interleaving of different employees |
| RefreshTokens.RefreshTokenLedger.RevokeIfActive | src/auth/persistence/repositories/refresh-token.repository.ts:38-46 | Revokes exactly an existing unrevoked row and says whether it did |
| RefreshTokens.RefreshTokenLedger.RevokeAllForUser | src/auth/persistence/repositories/refresh-token.repository.ts:48-55 | Revokes all rows of the user and no other |
| RefreshTokens.RefreshTokenLedger.DeleteExpired | src/auth/persistence/repositories/refresh-token.repository.ts:57-60 | Deletes exactly the rows that expired |
| RefreshTokens.AuthService.Validate | src/auth/strategies/jwt-refresh.strategy.ts:48-71 | The guard decides unknown, reused, expired, inactive or accepted in source order and revokes the family exactly on reuse |
| RefreshTokens.AuthService.RefreshEndpoint | src/auth/auth.service.ts:52-70 | Guard and rotation together report the outcome and leave the ledger that the refresh functions say |
| RefreshTokens.AuthService.Login | src/auth/auth.service.ts:23-47 | A login issues one row for a new jti and prunes expired rows |
| RefreshTokens.AuthService.Logout | src/auth/auth.service.ts:72-74 | A logout revokes all rows of the user |
| RefreshTokens.RefreshReportsExactly | src/auth/strategies/jwt-refresh.strategy.ts:48-71 | A refresh mints if and only if the token has not expired, its row is known, not revoked and not expired, and the user is active; each refusal is reported if and only if it is due and no earlier one is |
| RefreshTokens.RefreshLeavesExactly | src/auth/auth.service.ts:52-109 | A minting refresh revokes its row and adds one; reuse revokes all rows of the user; anything else changes nothing |
| RefreshTokens.EveryCallReports | src/auth/auth.service.ts:23-70 | Every login reports the token it issued and every refresh its outcome |
| RefreshTokens.PruningIsInvisible | src/auth/auth.service.ts:38-41 | With guard and rotation in one step on a clock that never runs back, a run with prunes anywhere reports call by call what the same run without them reports |
| RotationProtocol.RotationNeverForks | src/auth/auth.service.ts:52-109 | Under every interleaving of login, guard, revoke, issue, logout, family revocation and prune, a user's active rows plus rotations still to issue never exceed the logins, and each jti rotates at most once |
| RotationProtocol.HandlersMoveOn | src/auth/auth.service.ts:52-70 | What each step leaves its handler to do: reuse and lost races go on to revoke the family, an accepted token to rotate, a rotation to issue, and nothing acts twice |
| RotationProtocol.RotatorsWereGuarded | src/auth/strategies/jwt-refresh.strategy.ts:48-71 | Over every run, whoever is about to rotate a token has passed the guard with it, unexpired and unrevoked, for an active user |
| RotationProtocol.RevokingAllKills | src/auth/persistence/repositories/refresh-token.repository.ts:48-55 | Logout and family revocation leave every token issued to the user inactive |
| RotationProtocol.RevokedTokensNeverRotate | src/auth/strategies/jwt-refresh.strategy.ts:53-63 | No token that existed when its user's tokens were revoked ever rotates again |
| RotationProtocol.LogoutLasts | src/auth/auth.service.ts:72-74 | A user signed out with nothing being minted stays signed out over every run without a login |
| RotationProtocol.LogoutLastsUnlessMinting | src/auth/auth.service.ts:52-74 | Some later run without a login leaves an active row if and only if a token was between its revoke and its issue when the logout ran |
| RotationProtocol.LogoutExample | src/auth/auth.service.ts:52-74 | A run from the empty ledger: a rotation under way at the logout leaves the user an active row after it |
| RotationProtocol.PruneBetweenGuardAndRotation | src/auth/auth.service.ts:52-70 | Between guard and rotation: an accepted, active token still rotates after a prune if and only if its row has not expired by then; otherwise reuse is reported and the family is revoked |
| RotationProtocol.PruneIsVisibleExactly | src/auth/auth.service.ts:38-70 | Over whole runs from any reachable state: somebody is told something else than without the prune if and only if the prune reached the row of an accepted token that is still active when it rotates |
| RotationProtocol.HitsWereAccepted | src/auth/strategies/jwt-refresh.strategy.ts:48-71 | Whatever rotates after its row was pruned had been accepted before the prune |
| RotationProtocol.PrunedRotationExample | src/auth/auth.service.ts:38-70 | A run from the empty ledger reaches such a state: login, guard, then a prune before the rotation |
| SchedulePolicy.LeaveCancelledExactly | src/work-schedules/domain/cascade-policy.ts:73-148 | A leave is cancelled if and only if it reaches a governed date, the change hits it and it is pending or starts after today; past never occurs |
| SchedulePolicy.CorrectionCancelledExactly | src/work-schedules/domain/cascade-policy.ts:150-180 | The same for corrections, which a changed break alone never touches |
| ScheduleVersioning.NoWriteTripsAConstraint | src/work-schedules/schedule-change.service.ts:110-158 | From any table within its constraints and any validated intent, the table is within them after every intermediate write, and what that means at the end is spelled out |
| ScheduleVersioning.HistoryIsKept | src/work-schedules/domain/cascade-policy.ts:43-55 | For every date before the change the covering rows are the very same |
| ScheduleVersioning.WeekdayAfterwards | src/work-schedules/domain/cascade-policy.ts:43-55 | Afterwards a modified weekday has exactly one active row, with the window sent and starting at the change; a removed one has none |
| ScheduleVersioning.CoverageAfterwards | src/work-schedules/schedule-change.service.ts:110-158 | On every date from the change on, the row that was live covers nothing any more, the new row of a modification covers, and every other row covers what it covered |
| ScheduleVersioning.OneRowCoversFromTheChange | src/work-schedules/schedule-change.service.ts:110-158 | So of the rows not ended before, exactly the new one covers that weekday from the change on, or none after a removal |
| ScheduleVersioning.ValidateExactly | src/work-schedules/schedule-change.service.ts:190-227 | An intent is valid if and only if it does not start in the past, a removal is permitted, and a modification has a complete window in order; the first objection is the one reported |
| ScheduleVersioning.OthersUntouched | src/work-schedules/schedule-change.service.ts:110-158 | Rows of other weekdays and employees, and inactive rows, are untouched |
| ScheduleVersioning.WorkScheduleRepository.ApplyVersioning | src/work-schedules/schedule-change.service.ts:110-158 | The writes in source order, each guarded by the table, never refuse and give the planned version |
| ScheduleChange.CandidatesExactly | src/leave-requests/persistence/repositories/leave-request.repository.ts:118-134 | The two prefilters return exactly the active requests of the employee that reach the first day of the change |
| ScheduleChange.CascadeCancelsExactly | src/leave-requests/persistence/repositories/leave-request.repository.ts:118-134 | Over the whole table, prefilter included: a leave is cancelled if and only if it is active, the employee's, has a governed date, is hit and is pending or starts after today |
| ScheduleChange.CorrectionCascadeExactly | src/work-schedules/domain/cascade-policy.ts:150-180 | Over the whole table, prefilter included: a correction is cancelled if and only if it is active, the employee's, on a governed date, the window changes and it is pending or after today |
| ScheduleChange.ScheduleChangeService.ComputeImpact | src/work-schedules/schedule-change.service.ts:229-283 | The loops list exactly the requests the change cancels and sum the days they free |
| ScheduleChange.ScheduleChangeService.Apply | src/work-schedules/schedule-change.service.ts:69-103 | Succeeds exactly when the intent is valid, not a no-op and the keys match the preview; then it versions, cancels exactly that set and lowers the employee's consumption, summed over the types the balances use, by the freed days; otherwise nothing changes |
| ScheduleChange.CancelledListFrees | src/work-schedules/schedule-change.service.ts:278-281 | Cancelling any list of distinct active requests of one employee lowers the total consumption by exactly their days |
| ScheduleChange.CancelledEqualsPreviewed | src/work-schedules/schedule-change.service.ts:165-190 | When the drift guard passes, the leave requests that turn cancelled are exactly those previewed, in the status the caller saw |
| ScheduleChange.CorrectionsCancelledEqualPreviewed | src/work-schedules/schedule-change.service.ts:165-190 | The same for corrections |
| ScheduleChange.ApplyTouchesOneEmployee | src/work-schedules/schedule-change.service.ts:229-283 | No other employee's consumption changes |
| PayTable.DerivedWithinHalfUnit | src/compensation/compensation.constants.ts:34-37 | A derived hourly rate is within half a unit of the fourth decimal of the exact quotient |
| PayTable.CreateExactly | src/compensation/compensation.service.ts:50-158 | A create succeeds if and only if pay is not negative, the start not in the future and after the start of the current row, which it ends the day before; the new row holds what was sent |
| PayTable.CorrectExactly | src/compensation/domain/compensation.aggregate.ts:115-135 | A correction writes the salary, rate, flag and start that were sent, derives the rate when only a salary or a null rate was, and changes nothing else |
| PayTable.CorrectSucceedsExactly | src/compensation/domain/compensation.aggregate.ts:115-135 | It succeeds if and only if the row is live, no pay becomes negative and the start is neither in the future nor past the row's end |
| PayTable.DeleteExactly | src/compensation/compensation.service.ts:250-287 | Only the active row can be deleted, and the row with the latest earlier start, if any, is reopened |
| PayTable.InsertKeepsConstraints | src/compensation/compensation.service.ts:111-158 | A create keeps the CHECKs and the one-active index, also between its two writes |
| PayTable.DeleteKeepsConstraints | src/compensation/compensation.service.ts:250-287 | So does a deletion: the slot is free before the earlier row takes it |
| PayTimeline.InsertKeepsTimeline | src/compensation/compensation.service.ts:111-158 | A create keeps every employee's rows a gap-free, non-overlapping chain ending in an active row |
| PayTimeline.DeleteKeepsTimeline | src/compensation/compensation.service.ts:250-287 | So does deleting the active row and reactivating the one before |
| PayTimeline.CorrectKeepsTimeline | src/compensation/domain/compensation.aggregate.ts:115-135 | So does a correction that leaves the start date alone |
| PayTimeline.MovedStartKeepsTimelineExactly | src/compensation/domain/compensation.aggregate.ts:115-135 | A correction of the start date keeps the chain if and only if the date does not change or no row of the employee precedes it |
| PayTimeline.MovedStartExample | src/compensation/domain/compensation.aggregate.ts:115-135 | A concrete correction: the start of the later of two rows moves by two days and those days have no rate |
| PayTimeline.RateIsLatestStart | src/compensation/persistence/repositories/compensation.repository.ts:72-81 | The rate on a date is the row with the greatest start not after it, and no other row covers the date |
| PayTimeline.CompensationLookups.FindRatesOnDate | src/compensation/compensation.service.ts:182-188 | Whatever order the batched query answers in, the map agrees with the single lookup for every employee |
| PayTimeline.DeleteUndoesCreate | src/compensation/compensation.service.ts:250-287 | Deleting the row just created gives the table back plus one deleted row, so every rate on every date is what it was |
| PayBulk.BulkSucceedsExactly | src/compensation/compensation.service.ts:73-104 | A bulk create succeeds if and only if no employee appears twice and every item would succeed alone |
| PayBulk.BulkIsSinglesInAnyOrder | src/compensation/compensation.service.ts:73-104 | A successful bulk create gives, up to the ids of the new rows, the table of single creates in any order |
| CompensationService.CompensationService.InsertWithin | src/compensation/compensation.service.ts:111-158 | End, insert and audit in source order; the guarded writes never refuse, and a failure leaves both tables alone |
| CompensationService.CompensationService.CreateBulk | src/compensation/compensation.service.ts:73-104 | All or nothing: both tables take every item or stay as they were |
| CompensationService.CompensationService.Update | src/compensation/compensation.service.ts:205-240 | The correction and its audit row, or nothing |
| CompensationService.CompensationService.SoftDelete | src/compensation/compensation.service.ts:250-287 | Deletion, reactivation and audit row, or nothing |
| CompensationService.AuditedChangeIsTheChange | src/compensation/compensation.service.ts:50-287 | An audited change succeeds, fails and changes the table exactly as the change of the table does |
| CompensationService.AuditsSayWhatChanged | src/compensation/compensation.service.ts:144-287 | The one audit row of a create, correction or deletion names row, employee and action and holds salary, rate and start as they were before and are after |
| CompensationService.RunsKeepTimelines | src/compensation/compensation.service.ts:50-287 | Over every run of creates, bulk creates, deletions and corrections that move no start, every employee's rows form the chain |
| CompensationService.RunsKeepConstraints | src/database/migrations/1778700000000-CreateEmployeeCompensationsTable.ts:23-49 | Over every run, moved starts included, no constraint of the table is ever broken: no negative pay, no reversed range, no two active rows of one employee |
| CompensationService.RunsAreAudited | src/compensation/compensation.service.ts:144-287 | Over every run each row's trail links entry to entry and folds to its current salary, rate and start (to nothing when deleted), and every unflagged rate is the derived one |
| ChainTable.BatchIsEach | src/approval-chains/persistence/repositories/approval-chain.repository.ts:169-202 | Ending all rows first and inserting afterwards equals changing one slot after another |
| ChainTable.SlotsAfterEach | src/approval-chains/approval-chains.service.ts:108-153 | After a batch over distinct slots each named slot holds what was asked for and every other slot what it held |
| ChainTable.BatchKeepsConstraints | src/approval-chains/persistence/repositories/approval-chain.repository.ts:169-202 | Ends before inserts never hit the unique slot, and no self-approval is stored |
| ChainTable.BatchInAnyOrder | src/approval-chains/approval-chains.service.ts:226-271 | The order of a batch decides only the ids of the new rows |
| ApprovalChains.SetChainSucceedsExactly | src/approval-chains/approval-chains.service.ts:77-99 | The call succeeds if and only if its input is good (employee known, approvers active and not the employee, no L2 without L1); the table never objects |
| ApprovalChains.SetChainSaysWhy | src/approval-chains/approval-chains.service.ts:77-153 | Each refusal is reported if and only if it is due: the employee first, then level 1, then level 2, then the chain as a whole |
| ApprovalChains.SetChainReaches | src/approval-chains/approval-chains.service.ts:77-153 | Both steps end up as the tri-state input asks, and nobody else's chain moves |
| ApprovalChains.EndStepIsClearing | src/approval-chains/approval-chains.service.ts:156-175 | Succeeds exactly on an active step that does not orphan an L2; then only that slot is empty |
| ApprovalChains.EndStepSaysWhy | src/approval-chains/approval-chains.service.ts:156-175 | The same for ending a step |
| ApprovalChains.HeldIsExact | src/approval-chains/persistence/repositories/approval-chain.repository.ts:40-46 | The query lists every active row of the approver once and no other |
| ApprovalChains.HeldIsOrdered | src/approval-chains/persistence/repositories/approval-chain.repository.ts:40-46 | It lists them by employee, and level 1 before level 2 |
| ApprovalChains.BulkReassignMoves | src/approval-chains/approval-chains.service.ts:182-219 | Always succeeds for an active new approver: the slots the old one held move, except the new one's own; the occupied slots are the same; moved plus skipped are the rows held |
| ApprovalChains.BulkReassignSaysWhy | src/approval-chains/approval-chains.service.ts:182-192 | The same for a bulk reassign |
| ApprovalChains.BulkAssignSucceedsExactly | src/approval-chains/approval-chains.service.ts:226-271 | It succeeds if and only if somebody is selected, the approvers are active and every unskipped employee has a user row, soft-deleted or not |
| ApprovalChains.BulkAssignSaysWhy | src/approval-chains/approval-chains.service.ts:226-240 | The same for a bulk assign, level 1 before level 2 |
| ApprovalChains.BulkAssignIsSetEachExactly | src/approval-chains/approval-chains.service.ts:226-271 | Given success, the single calls for the unskipped employees succeed, in any order, if and only if every one of them is found (not soft-deleted); then the tables agree, up to the ids of the new rows in another order |
| ApprovalChains.SoftDeletedIsAssignedInBulk | src/approval-chains/approval-chains.service.ts:226-271 | A soft-deleted employee gets a chain from the bulk call while the single call answers that there is no such employee |
| ApprovalChains.BulkAssignReaches | src/approval-chains/approval-chains.service.ts:226-271 | Every unskipped selected employee has the chosen approvers, nobody else's chain moved, and the skipped are exactly the selected approvers, each once |
| ApprovalChains.ChangedMeansDifferent | src/approval-chains/approval-chains.service.ts:252-262 | An employee is counted as assigned exactly when some chosen step did not hold its chosen approver |
| ApprovalChains.RunsKeepChains | src/approval-chains/approval-chains.service.ts:77-272 | Over every run at most one active approver per slot, no self-approval, no L2 without L1 |
| ApprovalChains.RunsKeepHistory | src/approval-chains/persistence/repositories/approval-chain.repository.ts:169-202 | Over every run no row is removed, reopened or rewritten |
| ApprovalChainsService.ApprovalChainsService.ApplyStepChanges | src/approval-chains/persistence/repositories/approval-chain.repository.ts:169-202 | The guarded writes give the whole change or roll everything back, refusing exactly when the final table would break a constraint |
| ApprovalChainsService.ApprovalChainsService.ComputeStepChanges | src/approval-chains/approval-chains.service.ts:108-153 | The loop over the two steps collects the ends and inserts of the change function |
| ApprovalChainsService.ApprovalChainsService.SetChain | src/approval-chains/approval-chains.service.ts:77-99 | Checks, computation and commit in source order |
| ApprovalChainsService.ApprovalChainsService.BulkReassign | src/approval-chains/approval-chains.service.ts:182-219 | Checks, loop and commit, with the counts of moved and skipped rows |
| ApprovalChainsService.ApprovalChainsService.BulkAssign | src/approval-chains/approval-chains.service.ts:226-271 | Deduplication, checks, loop and commit, with the count of changed and the list of skipped employees |
| SeedAssignments.PickByLoops | src/database/seeds/approval-chain/chain-assignments.ts:41-53 | The nested loops return the first candidate that fits, or nobody |
| SeedAssignments.PickIsFair | src/database/seeds/approval-chain/chain-assignments.ts:41-53 | Never the employee, always somebody from the pools, the avoided one only if nobody else is on offer, and a failure exactly when nobody but the employee is |
| SeedAssignments.PickIsFirstInLine | src/database/seeds/approval-chain/chain-assignments.ts:41-53 | The pick is the one whose turn it is, counted from the index, in the first pool that has anybody besides the employee and the avoided person; without such a pool, the same avoiding nobody |
| SeedAssignments.AssignByLoops | src/database/seeds/approval-chain/chain-assignments.ts:55-101 | The counting and assigning loops give the assignment of the function, failures included |
| SeedAssignments.EveryoneIsAssigned | src/database/seeds/approval-chain/chain-assignments.ts:55-101 | Every non-admin employee gets one L1 and, exactly as an employee or project manager, one L2; never self, always an active PM, TD or HR; L2 repeats L1 only when forced; it fails exactly when some pool list has nobody but the employee |
| SeedAssignments.EveryoneInTurn | src/database/seeds/approval-chain/chain-assignments.ts:55-101 | In order of id, everybody gets the approvers of the org table, counting the place among the earlier ones of the same role; the second level avoids the first |
| SeedAssignments.LoadsAreBalanced | src/database/seeds/approval-chain/chain-assignments.ts:62-95 | With at least one PM the L1 loads from the EMPLOYEE role differ by at most one between any two PMs |
| SeedLeaveRows.NthWeekdayByLoops | src/database/seeds/leave-request/leave-rows.ts:74-84 | Both loops terminate and find the offset-th weekday |
| SeedLeaveRows.NthIsTheNth | src/database/seeds/leave-request/leave-rows.ts:74-84 | It is Monday to Friday, on or after the base, with exactly offset weekdays before it |
| SeedLeaveRows.NthIncreases | src/database/seeds/leave-request/leave-rows.ts:74-84 | It is strictly increasing in the offset |
| SeedLeaveRows.NoWeekdayIsSkipped | src/database/seeds/leave-request/leave-rows.ts:74-84 | Every weekday on or after the base is reached |
| SeedLeaveRows.CountBetween | src/database/seeds/leave-request/leave-rows.ts:74-84 | From the m-th to the n-th weekday the day count is n - m + 1 |
| SeedLeaveRows.LeaveRowBuilder.Build | src/database/seeds/leave-request/leave-rows.ts:89-225 | For any base date and index the rows are the described ones: their number and statuses, and by status the type, the weekday, the portion, the charge and the stamps; they follow one another without touching and charge the weekdays they span |
| TimeEntries.RetryAfterIsLeast | src/time-entries/time-entries.service.ts:319-338 | Waiting the announced seconds is enough, and no smaller whole number is |
| TimeEntries.PunchSucceedsAfterCooldown | src/time-entries/time-entries.service.ts:62-106 | Whatever entries others wrote, once the cooldown guard passes neither closing nor opening fails, and the punch toggles |
| TimeEntries.PunchExactly | src/time-entries/time-entries.service.ts:62-106 | Each answer of a punch if and only if it is due, and the one row it opens or closes |
| TimeEntries.CreateExactly | src/time-entries/time-entries.service.ts:119-164 | An admin create is refused for a second open entry or a bad window and appends what was sent otherwise |
| TimeEntries.UpdateExactly | src/time-entries/time-entries.service.ts:175-195 | An edit is refused for a missing row, a bad merged window or a second open entry, and writes the merged row with the derived status otherwise |
| TimeEntries.CorrectionExactly | src/time-entries/time-entries.service.ts:222-298 | Each answer to an approved correction if and only if it is due, in the order of the guards, and the one row it writes |
| TimeEntries.RunsKeepValid | src/time-entries/time-entries.service.ts:62-302 | Over every run windows stay valid, the status column says whether there is a time out, and nobody has two open entries |
| TimeEntries.PunchesAlternate | src/time-entries/time-entries.service.ts:62-106 | Over any run of uninterleaved calls in which no admin write or correction disturbs the employee, self-punches alternate between open and close at least five minutes apart. A write disturbs when it opens, closes or deletes the open entry, or leaves the last event before a punch that is not yet five minutes old |
| TimeEntries.WriteDerailsExactly | src/time-entries/time-entries.service.ts:119-298 | Exactly that guard, also as a check before the write: after an admin write or correction some run of punches alone breaks alternation or pauses if and only if the write opens or closes an entry of the employee, or leaves no event from a punch on that is not yet five minutes old |
| TimeEntries.DeletionBreaksThePauses | src/time-entries/time-entries.service.ts:197-200 | With an admin deletion in between neither holds: from any state without live entries, two punches in a row open at the same instant |
| TimeEntries.TimeEntriesService.PunchNow | src/time-entries/time-entries.service.ts:62-106 | Cooldown, look-up and guarded write in source order |
| TimeEntries.TimeEntriesService.CreateEntry | src/time-entries/time-entries.service.ts:119-164 | The admin create in source order |
| TimeEntries.TimeEntriesService.UpdateEntry | src/time-entries/time-entries.service.ts:175-195 | The merge of an admin edit, with the status derived from the merged window |
| TimeEntries.TimeEntriesService.Apply | src/time-entries/time-entries.service.ts:222-298 | Both branches of a correction in source order |
| PunchProtocol.NeverTwoOpenEntries | src/time-entries/persistence/repositories/time-entry.repository.ts:52-70 | Under every interleaving of the steps of punches with admin writes and corrections no employee has two entries without a time out |
| PunchProtocol.LateInsertIsRefused | src/time-entries/time-entries.service.ts:85-105 | A punch that saw no open entry is refused exactly when one has appeared since |
| PunchProtocol.UndisturbedStepsArePunch | src/time-entries/time-entries.service.ts:62-106 | Without interleaving the three steps are the one punch |
| PunchProtocol.FreshLookIsPunch | src/time-entries/time-entries.service.ts:62-106 | A write decided on a fresh look answers and writes what the one punch does, refusals included |
| PunchProtocol.LateCloseIsRefused | src/time-entries/time-entries.service.ts:62-82 | A punch that read an open entry is told that it ends too early, or else that the entry is gone, if and only if that is so |
| PunchProtocol.RefusedStepsLeave | src/time-entries/time-entries.service.ts:62-106 | A refused cooldown check starts nothing, and a write ends its punch whether or not it goes through |
| PunchProtocol.PunchesStayInStep | src/time-entries/time-entries.service.ts:62-106 | Over any interleaving of punch steps with each other and with writes that do not disturb, an employee whose punches never race alternates, at least five minutes apart |
| PunchProtocol.OverlapDerailsExactly | src/time-entries/time-entries.service.ts:62-106 | From any state in step: with no other write and no new punch, the punches in flight can break alternation or pauses if and only if two of the employee are in flight at once and not both have found no open entry |
| PunchProtocol.RunDerailsExactly | src/time-entries/time-entries.service.ts:62-106 | Over whole runs without a disturbing write: some moment has a continuation out of step if and only if two punches race at some moment |
| PunchProtocol.RaceExample | src/time-entries/time-entries.service.ts:62-106 | A run from an empty timesheet: two punches begin at once, and one closes the entry a millisecond after the other opened it |
| CorrectionApproval.ApprovalShowsInTimesheet | src/time-correction-requests/time-correction-requests.service.ts:230-279 | The step that turns a correction approved is an approval that ran to its end, and the timesheet then shows the correction |
| CorrectionApproval.ApproveExactly | src/time-correction-requests/time-correction-requests.service.ts:230-279 | Refusals of the state machine or the timesheet change nothing; an approval that is not final leaves the timesheet alone; a final one writes it, and the request too unless the process stops in between |
| CorrectionApproval.EditExactly | src/time-correction-requests/time-correction-requests.service.ts:198-221 | An HR edit succeeds if and only if the request is pending and the merged window valid, and changes only the window |
| CorrectionApproval.ApprovedRun | src/time-correction-requests/time-correction-requests.service.ts:197-279 | A run from nothing: a correction submitted beside another, edited, approved and shown in the timesheet |
| CorrectionApproval.ApprovedOnlyAfterTimesheet | src/time-correction-requests/time-correction-requests.service.ts:230-279 | Over every run, stops between the two writes and HR edits included, no correction is approved without its timesheet write |
| CorrectionApproval.TargetedRetryHeals | src/time-correction-requests/time-correction-requests.service.ts:257-274 | After such a stop, approving a targeted correction again ends as if nothing had happened |
| CorrectionApproval.NewLogStaysPending | src/time-entries/time-entries.service.ts:264-273 | A new log is not approved while the employee has a live entry on its date |
| CorrectionApproval.StoppedNewLogBlocksItself | src/time-correction-requests/time-correction-requests.service.ts:257-274 | After such a stop the entry left behind refuses the next approval of its own request |
| CorrectionApproval.RetryAfterStopExactly | src/time-correction-requests/time-correction-requests.service.ts:257-274 | Approving again at once after such a stop succeeds if and only if the correction has a target entry |
| CorrectionApproval.FinalApprovalExactly | src/time-entries/time-entries.service.ts:222-298 | However the timesheet and the window have changed since a stop, a final approval by anybody succeeds if and only if the window is valid, the target is live, or no live entry is on the date of a new log, and a correction without a time out meets no other open entry |
| CorrectionApproval.TimeCorrectionRequestsService.Approve | src/time-correction-requests/time-correction-requests.service.ts:230-279 | Guards, timesheet write and status flip in source order |
| CorrectionApproval.TimeCorrectionRequestsService.Update | src/time-correction-requests/time-correction-requests.service.ts:198-221 | The HR edit of a pending correction merges and checks the window and touches nothing else |

## Left out

- HR edits of pending leave inside `LedgerProtocol`: its bound is over runs without them; `LeaveEdits` says exactly which uninterleaved ones break it. The edited reason, and null for a date, are not modelled.
- The foreign key from pay rows to users: an unknown employee fails a single and a bulk create alike.
- Interleaving inside approve, reject and cancel (load, then save, without a lock): one atomic step each. Compensation, chain and schedule transactions are atomic too, with the table's constraints as guards on every write inside them.
- Admin edits of time entries in `PunchProtocol` are atomic; only the steps of punches interleave.
- Revoking a grant: the columns for it exist, but no code path writes them.
- A schedule row that was ended before the change and reaches past it: no claim is made that schedule rows never overlap on or after the change.
- Clocks in `TimeEntries` and `PunchProtocol` never run back: steps with an earlier time are ignored.
- The two look-ups of a submit before its transaction, and the look-up of the last event with its comparison in a punch, are one step each.
- CorrectionApproval.TargetedRetryHeals: compares requests and entries; the bookkeeping list of the model records the repeated write.
- The `effective_at` timestamps of chain rows and the unique index over them, and the audit columns (who and when) of every table except those a property is about.
- Floating point: quotients and roundings are exact, so an hourly rate within floating-point error of a rounding boundary is not modelled. The divisor is the default 208.67.
- Column widths such as the one decimal of working days and the twelve digits of money.
- Mixed-width clock strings (`HH:MM` beside `HH:MM:SS`): the stored fixed-width form is modelled.
- Token signing and hashing, expiry strings such as `15m`, time-zone conversion of today.
- Attachments, object storage, HTTP controllers, validation of request bodies, mappers, event publishing, paging, roles and user accounts: plumbing, or members that would be easy.
