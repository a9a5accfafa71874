# HAT rota: models and proofs

The rota service assigns one person a day to the HAT duty, finds covers for people on leave, lets people
swap days, and publishes the result as calendar feeds. This project models its scheduler, its swap log and
six small machines around them, and proves what they promise. `dafny verify dfyconfig.toml` verifies it all.

## How it is built

- `Rotation`, `Roster`: dates as day numbers, working days, the `(date, index)` cursors, rows keyed by
  `(date, is_cover)` as the unique key of the table has it, leaves, and one step of cover assignment.
- `CoverRuns`, `Reassign`: a run of cover assignment as a fold over events. Its commits turn out to be a function
  of the starting table (the ledger), which gives the fixed point, its exact start condition, and its immunity
  to ad-hoc traffic.
- `Schedule`, `Histories`, `Runs`: the persistent state, every maintenance call as a function on it, the
  invariant, and theorems about arbitrary sequences of calls.
- `Unsettled`, `Witnesses`: concrete histories that show which conditions of the theorems are needed.
- `Maintenance` (with `Recount`): the scheduler as a class with the loops of the program, each method proved
  equal to its function in `Schedule`.
- `HatSwaps`: the swap log as a state machine whose acceptances are split into read phase and transaction,
  and as a mutable store.
- `Joint`: swap phases and scheduler calls interleaved on one table, with the deletions that sweeps make.
- `RateLimit`, `Outbox`, `Feeds`, `Shuffle`, `Sanitize`, `Token`: token bucket, notification outbox, calendar
  feed suppression, agenda shuffle, calendar text, unsubscribe token.
- `Text`, `Wrappers`: white space and case of ASCII strings; `Option` and `Result`.

A team is a list in the order the member query returns it, the holidays, an arbitrary function, and the row that
the unordered R1 query returns, another one. Random numbers, delivery results, the clock, the keyed digest and the
text encoding of bytes are parameters.

## Where the code and its comments disagree

The models follow the code.

- `internal/rota/reassign.go:33` promises idempotency without conditions. It needs a start in which no day of a
  leave meets a cover who is on leave (`Unsettled.StrandedCoverBreaksIdempotency`, `Histories.ReassignRepeatsIff`).
- `internal/rota/engine.go:543` says that consecutive covers are always a slot apart. A gap of whole turns
  repeats the person (`Reassign.FullTurnRepeats`, reached in `Witnesses.FullTurnGivesOnePersonBothCovers`; the true
  form is `Reassign.RepeatIff`).
- `internal/database/rota.go:163` says that the ad-hoc columns are nullable. Every migration declares them NOT
  NULL (`migrations/000017_cover_rotation_state.up.sql:9`), so on a database without the row the anchor write is
  ignored; the model does the same.
- `internal/database/sqlc/queries/r1_rotation_state.sql:14` says that the table holds one row. It has no key, so
  each write appends and the read returns any row. For the team that wrote the rows that is harmless
  (`Schedule.AnyRowGivesTheSlot`). After a change of team it need not be, so `internal/rota/maintenance.go:240` is
  not right that generation continues from the last successful write (`Witnesses.TeamChangeLosesTheTurn`; the exact
  condition is `Schedule.RowsAgreeIff`).
- `internal/database/hat_swaps.go:482` guards an acceptance against rows that a scheduler reassigned meanwhile, by
  comparing their owners with each other and not with the captured pair (`Witnesses.StaleOfferMovesLoad`; the exact
  condition is `Joint.SwapActionKeepsLoadIff`).
- A rejected or cancelled leave still counts as away in the leave-by-date query
  (`internal/database/sqlc/queries/leave_records.sql:5`); only active leaves get covers.
- Waiting the Retry-After header can fall short by a lost fraction of a nanosecond
  (`RateLimit.RetryAfterAdmitsIff`); the deployed rates never do (`RateLimit.WholePeriodWaitsAreHonoured`).

## Model

| member | source | states |
|---|---|---|
| `Histories.ReassignIsIdempotent` | internal/rota/reassign.go:33-49 | for every well-formed state, whatever team its originals were written under, in which no unswapped cover row belongs to somebody with an active leave that day: running `ReassignCovers` again changes no row, leave or cursor |
| `Histories.ReassignRepeatsIff` | internal/rota/reassign.go:33-49 | the exact start condition: the second run makes the commits of the first, date by date, if and only if no day of a leave meets a cover who is on leave before that day has been re-covered |
| `Histories.ReassignKeepsRowsIff` | internal/rota/reassign.go:33-49 | and for the rows alone: the second run changes none if and only if the commit logs of the two runs, both computed from the starting table, end on the same slot for every date that the second commits and whose cover was not swapped. Conditions on the table itself that a caller can check are `CoverRuns.Undisturbed` and the simpler `Reassign.Settled` |
| `Histories.ThirdReassignEqualsSecond` | internal/rota/reassign.go:33-49 | from every well-formed state the third run equals the second |
| `Histories.ReassignIgnoresTraffic` | internal/rota/reassign.go:43-57 | after a single reassign run from any well-formed state, any list of `HandleLeaveChange` calls makes no difference to the next run: same rows, same commits, same R1 rows and, if there is a row to hold it, same anchor; the calls never write the anchor and the run never writes the ad-hoc cursor |
| `Histories.AdHocCallsAreUndone` | internal/rota/reassign.go:43-49 | corollary at a fixed point: the calls followed by a run restore every row |
| `Histories.TrafficAfterPassesIsUndone` | internal/rota/reassign.go:43-57 | corollary: after one run from a settled start, or two from any start, traffic and another run leave the rows as they were |
| `Unsettled.StrandedCoverBreaksIdempotency` | internal/rota/reassign.go:33-36 | the unconditional promise fails: eight ordinary calls from an empty database reach a sound state from which the second run moves a day to somebody else, and both exact conditions are false of it |
| `Unsettled.CallsReach` | internal/rota/maintenance.go:283-328 | the state these generate, leave-change and leave-delete calls lead to |
| `Reassign.PassIsIdempotent` | internal/rota/reassign.go:82-129 | the same fixed point for any order of the leaves, since the order of equal start dates is left open |
| `Reassign.PassRepeatsIff` | internal/rota/reassign.go:82-129 | the exact condition for any order of the leaves |
| `Reassign.ThirdPassEqualsSecond` | internal/rota/reassign.go:82-129 | two passes settle any well-shaped table |
| `Reassign.PassIgnoresUnswappedCovers` | internal/rota/reassign.go:51-57 | the commits of a settled pass are a function of leaves, originals and swapped covers only |
| `Reassign.AdHocTrafficIsUndone` | internal/rota/reassign.go:43-49 | after one pass from any well-shaped table, any ad-hoc calls on existing leaves, from any ad-hoc cursor, make no difference to the next pass |
| `CoverRuns.RunFollowsLedger` | internal/rota/engine.go:726-775 | the commits of any run of leave days are computed from the starting table alone, and every row afterwards is explained by them |
| `CoverRuns.SecondRunRepeatsIff` | internal/rota/engine.go:573-623 | for any cursor: a run repeats its own commits if and only if its start is undisturbed |
| `CoverRuns.SecondRunKeepsRowsIff` | internal/rota/engine.go:573-623 | the same for the rows of a run from any cursor |
| `CoverRuns.UndisturbedRunIsFixedPoint` | internal/rota/engine.go:573-623 | an undisturbed run is a fixed point on rows and commits |
| `CoverRuns.ThirdRunEqualsSecond` | internal/rota/engine.go:573-623 | any run settles after two rounds |
| `CoverRuns.RunIsWorked` | internal/rota/engine.go:726-775 | one run, from any start, leaves no stale cover in what it swept, nobody stranded on what it processed, and a cover on every day it must cover |
| `CoverRuns.TrafficIsIrrelevant` | internal/rota/engine.go:777-808 | on such a table, a run after runs of the other cursor over a part of its days ends on the rows and commits it would have had without them |
| `CoverRuns.SteadyIsRestored` | internal/rota/engine.go:777-808 | in particular, a run that reproduces its table reproduces it after such runs |
| `Histories.ReassignKeepsForm` | internal/rota/reassign.go:82-129 | a reassign run keeps the form of the state, the rotation invariant if it holds, the originals, the R1 rows and the ad-hoc cursor, and the order in which leaves will be processed |
| `Histories.LeaveChangeKeepsForm` | internal/rota/maintenance.go:283-297 | an ad-hoc call keeps the form of the state, the rotation invariant if it holds, the originals, the R1 rows and the reassign anchor |
| `Histories.LeaveChangesAreOneRun` | internal/rota/maintenance.go:283-297 | a list of ad-hoc calls equals one run over the named leaves that resumes from the stored cursor |
| `Histories.ReassignHandlesEveryLeave` | internal/rota/reassign.go:82-129 | sound and complete: on every working day of an active leave whose member holds the original there is a cover whenever anybody is free, an unswapped one is a member not on leave, swapped rows are untouched |
| `Histories.LeaveChangeHandlesItsLeave` | internal/rota/maintenance.go:283-297 | the same for one ad-hoc call on its own leave |
| `Reassign.CoversAreSoundAndComplete` | internal/rota/engine.go:433-446 | the same for a run over any leaves from any cursor |
| `Reassign.RunFrame` | internal/rota/engine.go:823-911 | such a run changes no original and no swapped row in place, and deletes a cover exactly if its original is not on leave and some leave spans the date |
| `Histories.ReassignMarks` | internal/rota/engine.go:726-775 | a reassign run changes nothing in a leave but its status, and sets that to assigned for exactly the leaves that the run takes up: active, with an available working day on which the member holds the original or a row from a swap, or is an unswapped cover on leave that no leave processed before has met |
| `Histories.ReassignMarksPlainly` | internal/rota/engine.go:726-775 | in particular for every leave with an available working day on which its member holds the original, and never for one that is not active or whose member holds no row on any such day |
| `Histories.LeaveChangeMarks` | internal/rota/engine.go:726-775 | an ad-hoc call does the same to its own leave, and leaves every other leave as it is |
| `Histories.LeaveChangeMovesCursor` | internal/rota/engine.go:795-808 | the ad-hoc cursor ends on the last day of the leave that is committed and on the slot of the person who covers it, and stays if there is no such day; an unknown leave changes nothing and is an error |
| `Histories.ReassignFollowsLedger` | internal/rota/reassign.go:82-129 | the rows a reassign run leaves, and the anchor it writes if there is a row to hold it, are those of the ledger of the starting table; R1 rows and ad-hoc cursor stay |
| `Reassign.RunTakesUp` | internal/rota/engine.go:726-775 | for any order of the leaves and any cursor: the leaves with a commit are exactly those taken up |
| `Recount.ChangedLeavesAre` | internal/rota/reassign.go:97-129 | the counter of a run is the number of leaves for which some cover of their days came, went or changed hands while they were processed |
| `Histories.MarkAllIs` | internal/rota/engine.go:726-775 | marking a log of commits sets exactly the leaves named in it |
| `Histories.SortedByStartSorts` | internal/rota/reassign.go:82-95 | the processing order is chronological and a permutation of the leaves |
| `Rotation.SlotIsPhasePlusCount` | internal/rota/engine.go:647-679 | the three-way switch, forward or backward, gives phase plus signed working-day count modulo the team |
| `Rotation.AdvanceKeepsPhase` | internal/rota/engine.go:264-267 | storing the slot just computed conserves the phase of a cursor |
| `Rotation.SameSlotIff` | internal/rota/engine.go:684-704 | two days share a slot exactly when their working-day counts agree modulo the team |
| `Rotation.WCountsWorkingDays` | internal/rota/engine.go:684-693 | the signed count is the number of working days in between |
| `Rotation.ModNonNegative` | internal/rota/engine.go:698-704 | the corrected host-language remainder is the mathematical one, also for negative input |
| `Schedule.AnyRowGivesTheSlot` | internal/database/sqlc/queries/r1_rotation_state.sql:8-18 | while the team that wrote the R1 rows is the one that reads them, whichever row the unordered single-row query returns, the slot is the same |
| `Schedule.RowsAgreeIff` | internal/database/sqlc/queries/r1_rotation_state.sql:8-18 | the exact condition for any two rows and any team that reads them: the same slot if and only if their phases differ by whole turns of that team |
| `Witnesses.TeamChangeLosesTheTurn` | internal/rota/maintenance.go:228-243 | after a fourth member has joined a team of three, only the row of the last write continues the rotation; each of the older ones gives the next day to the person who had the last one |
| `Runs.OriginalsArePathIndependent` | internal/rota/engine.go:111-154 | two histories of any calls put the same person on a date exactly when their first written dates are whole turns apart, however they were ordered or split |
| `Runs.HistoriesAreFair` | internal/rota/engine.go:89-154 | after any calls but swaps, over any range they have planned in full, two members differ by at most one original day, and a range of exactly one turn uses everybody once |
| `Runs.OriginalsStayPlain` | internal/rota/engine.go:122-154 | such histories leave unswapped originals, on working days only |
| `Runs.RotationIsFair` | internal/rota/engine.go:89-154 | the same fairness for any sound state and any range whose originals are unswapped and stand on exactly its working days |
| `Runs.SlotShare` | internal/rota/engine.go:684-704 | the number of working days that fall on a slot depends only on the working-day counts at the ends of the range |
| `Runs.EveryRunIsSound` | internal/rota/maintenance.go:37-373 | every run of generate, fill, ensure, regenerate, leave and reassign calls and swaps from an empty database keeps covers on existing originals of their own date, ids unique, and unswapped originals on their rotation slot |
| `Runs.EveryRunIsFormed` | internal/rota/maintenance.go:37-373 | the same without the rotation slots for runs in which every call is made by a team of its own |
| `Runs.TeamChangeFillsTheWindow` | internal/rota/maintenance.go:228-233 | after any such run, handling a change of team leaves the window full and free of stale covers, also where other teams wrote it, and handling it again does nothing |
| `Runs.FlipIsSwapped` | internal/database/hat_swaps.go:409-456 | the two row writes of the swap log and of the schedule table are the same operation seen by id and by date |
| `Roster.FirstAvailableIsFirst` | internal/rota/engine.go:275-295 | the cyclic search returns the first member not on leave |
| `Roster.FirstFreeIsReturned` | internal/rota/engine.go:275-295 | and there is only one such result |
| `Roster.FirstAvailableFailsIff` | internal/rota/engine.go:275-295 | it fails exactly when every member is on leave |
| `Reassign.RepeatIff` | internal/rota/engine.go:573-600 | when the same person covers again, on a later, equal or earlier date: free, and everybody between the starting slot and them on leave; the walk is minus the signed working-day gap |
| `Reassign.NoRepeatNextDay` | internal/rota/engine.go:538-548 | one working day apart: the same person exactly when all others are on leave |
| `Reassign.FullTurnRepeats` | internal/rota/engine.go:538-548 | a gap of whole turns, forward or backward, always repeats the person if free, so covers are not always a slot apart |
| `Witnesses.FullTurnGivesOnePersonBothCovers` | internal/rota/engine.go:538-548 | calls from an empty database after which two covers in a row, a full turn apart, name one person although another is free on both days |
| `Reassign.SuccessiveCovers` | internal/rota/engine.go:490-552 | two successive commits of one run, one working day apart, name the same person exactly when all others are on leave |
| `Reassign.NextCoverRepeatsIff` | internal/rota/engine.go:490-552 | the same for any commit and the cursor it starts from, also one written before the run |
| `Schedule.GeneratedCoverRepeatsIff` | internal/rota/engine.go:165-193 | the same for covers that schedule generation writes after any other ad-hoc cover |
| `Roster.AssignedIsActive` | internal/rota/engine.go:817-820 | marking a leave as assigned keeps it active, and completed is never active |
| `Schedule.ProcessDateWrites` | internal/rota/engine.go:122-193 | a date gets its original, and a cover exactly when the original is on leave and somebody is free; the ad-hoc cursor names who covered, and is untouched otherwise |
| `Schedule.ProcessDateKeepsForm` | internal/rota/engine.go:122-154 | one date, on tables of any earlier team, keeps the form, carries the rotation invariant, and succeeds exactly when it is no working day or has no original yet |
| `Schedule.GenerateSucceedsIff` | internal/rota/engine.go:89-109 | `GenerateSchedule` succeeds exactly when no working day of the range has an original, and extends the table on working days only |
| `Schedule.GeneratePlans` | internal/rota/engine.go:89-193 | then every working day gets its original, on the slot that the R1 rows before it give, and a cover exactly when that original is away and somebody is not; each cover is the next in turn after the one before it, the ad-hoc cursor ends on the last cover or stays, one R1 row is added for each date, and the reassign anchor stays |
| `Schedule.GenerateStopsAt` | internal/rota/engine.go:122-154 | otherwise it stops at the first working day that has an original, with the days before it planned in the same way and, for the day itself, at most the ad-hoc cursor moved |
| `Schedule.PlannedCoversRepeatIff` | internal/rota/engine.go:490-552 | two successive covers of a planned range, one working day apart, are one person exactly when all others are away |
| `Schedule.PlannedCoverRepeatsIff` | internal/rota/engine.go:490-552 | the same for a planned cover and wherever the ad-hoc cursor stood |
| `Schedule.MissingDaysFills` | internal/rota/maintenance.go:125-201 | gap filling never fails for a non-empty team, changes no row, fills every working day without rows as `Schedule.GeneratePlans` says, covers and cursors included, writes nothing on weekends or holidays, and reports true exactly when there was a gap; an empty team is an error that changes nothing |
| `Schedule.EnsureIsIdempotent` | internal/rota/maintenance.go:37-53 | after `EnsureSchedule` the window is full and free of stale covers; a cover of the window goes exactly if its original is not away, every other row of the table stays as it was, what is new stands on working days without rows and is planned as above; a second call returns false and changes nothing |
| `Schedule.LeaveDeleteRestores` | internal/rota/maintenance.go:303-328 | after `HandleLeaveDelete` exactly that leave is gone and its window, under the remaining leaves, is as `EnsureSchedule` would leave it; no row outside the window changes; an unknown leave is an error that changes nothing |
| `Schedule.RegenerateRebuilds` | internal/rota/maintenance.go:244-279 | `RegenerateSchedule` plans the range as if it had been empty, covers and cursors included, and leaves every row outside it alone; an empty team is an error that changes nothing |
| `Schedule.SweepKeepsForm` | internal/rota/maintenance.go:331-373 | reconciling removes every stale cover of the range, keeps the originals and the form, and carries the rotation invariant |
| `Maintenance.ScheduleMaintenance.WorkingDaysBetween` | internal/rota/engine.go:684-693 | the loop counts the working days of the half-open range |
| `Maintenance.ScheduleMaintenance.ComputeCoverRotationIndex` | internal/rota/engine.go:490-536 | the ad-hoc read: no state gives slot 0, otherwise the three-way switch |
| `Maintenance.ScheduleMaintenance.CommitCoverRotationState` | internal/rota/engine.go:549-552 | writes the ad-hoc columns and keeps the reassign anchor |
| `Maintenance.ScheduleMaintenance.ComputeReassignRotationIndex` | internal/rota/engine.go:573-600 | the in-memory read: an unset date gives slot 0, otherwise the three-way switch |
| `Maintenance.ScheduleMaintenance.CommitReassignRotationState` | internal/rota/engine.go:612-623 | sets the in-memory cursor and the anchor columns of an existing row, never the ad-hoc ones |
| `Maintenance.ScheduleMaintenance.R1RotationIndex` | internal/rota/engine.go:647-679 | the slot of the original for a date, from whichever stored row is read, written by whichever team |
| `Maintenance.ScheduleMaintenance.GetR1RotationState` | internal/database/sqlc/queries/r1_rotation_state.sql:8-10 | the row that the store chooses to return, if there is one |
| `Maintenance.ScheduleMaintenance.GetLeaveByDate` | internal/database/sqlc/queries/leave_records.sql:5-8 | the members returned are exactly those with a leave over the date that is not completed |
| `Maintenance.ScheduleMaintenance.GetAssignmentsByDateRange` | internal/database/rota.go:78-115 | every row of the range, once, and nothing else |
| `Maintenance.ScheduleMaintenance.FindCover` | internal/rota/engine.go:275-295 | the nested loops compute the cyclic search |
| `Maintenance.ScheduleMaintenance.FindMemberIndex` | internal/rota/engine.go:303-310 | an index of the member, or -1 exactly when absent |
| `Maintenance.ScheduleMaintenance.EnsureOriginalAssignment` | internal/rota/engine.go:823-850 | the row the member holds as original, or the original of the row they cover |
| `Maintenance.ScheduleMaintenance.CreateCoverAssignment` | internal/rota/engine.go:875-911 | inserts the cover, re-points an unswapped one, leaves a swapped one alone |
| `Maintenance.ScheduleMaintenance.RecordActualCoverSlotFor` | internal/rota/engine.go:795-808 | the cursor of the chosen source takes the slot of the person who covered; an unknown person changes nothing |
| `Maintenance.ScheduleMaintenance.ProcessLeaveDate` | internal/rota/engine.go:726-775 | one day of a leave is one step of the run |
| `Maintenance.ScheduleMaintenance.ProcessLeaveDates` | internal/rota/engine.go:433-446 | the date loop is the run over the days of the leave |
| `Maintenance.ScheduleMaintenance.AssignCoversForLeave` | internal/rota/engine.go:348-376 | an unknown leave is an error, an inactive one does nothing, an active one is processed day by day |
| `Maintenance.ScheduleMaintenance.BuildLeaveIndex` | internal/rota/maintenance.go:375-398 | the index lists, for each date of the range, exactly the members on leave |
| `Maintenance.ScheduleMaintenance.FindOriginalMemberID` | internal/rota/maintenance.go:401-411 | the member of the listed row with that id, if it is listed |
| `Maintenance.ScheduleMaintenance.ReconcileCoversForDateRange` | internal/rota/maintenance.go:331-373 | deletes exactly the stale covers of the range |
| `Maintenance.ScheduleMaintenance.HandleLeaveChange` | internal/rota/maintenance.go:283-297 | the new state and the result equal the specification that the theorems above are about, on any well-formed state |
| `Maintenance.ScheduleMaintenance.HandleLeaveDelete` | internal/rota/maintenance.go:303-328 | on any well-formed state, also one written by earlier teams, the new state and the result equal its specification; the rotation invariant is carried |
| `Maintenance.ScheduleMaintenance.SnapshotLeaveCovers` | internal/rota/reassign.go:161-182 | the covers of the leave by date |
| `Maintenance.SameCoverSet` | internal/rota/reassign.go:185-195 | size check and one-way loop decide equality of two snapshots |
| `Maintenance.SortByStartDate` | internal/rota/reassign.go:82-95 | sorts the slice in place into the processing order |
| `Maintenance.ScheduleMaintenance.ReassignHandleLeaveChange` | internal/rota/reassign.go:146-151 | sweep and assignment of one leave with the reassign cursor; a leave that is gone is swept and is an error |
| `Maintenance.ScheduleMaintenance.ReassignCovers` | internal/rota/reassign.go:82-129 | new state, cleared in-memory cursor, number of leaves processed, number whose own covers moved, no failures |
| `Maintenance.ScheduleMaintenance.DetermineCoveringMember` | internal/rota/engine.go:165-193 | the cover, or the original when nobody is free, and the cursor write that goes with it |
| `Maintenance.ScheduleMaintenance.CreateAssignment` | internal/rota/engine.go:218-254 | rows and cursor row written, including what stays when an insert hits the unique key |
| `Maintenance.ScheduleMaintenance.ProcessDate` | internal/rota/engine.go:122-154 | on any well-formed state, equals its specification and keeps the form |
| `Maintenance.ScheduleMaintenance.GenerateSchedule` | internal/rota/engine.go:89-109 | on any well-formed state the loop equals its specification and carries the rotation invariant; an empty team is an error that changes nothing |
| `Maintenance.ScheduleMaintenance.GetDatesWithAssignments` | internal/rota/maintenance.go:147-163 | the dates of the range that have any row |
| `Maintenance.ScheduleMaintenance.GenerateAssignmentsForMissingDates` | internal/rota/maintenance.go:176-201 | the loop, its early exit and its created flag equal their specification |
| `Maintenance.ScheduleMaintenance.GenerateMissingDays` | internal/rota/maintenance.go:125-144 | on any well-formed state, equals its specification, empty team included, and carries the rotation invariant |
| `Maintenance.ScheduleMaintenance.EnsureSchedule` | internal/rota/maintenance.go:37-53 | sweeps first, then fills; on any well-formed state, equals its specification and carries the rotation invariant |
| `Maintenance.ScheduleMaintenance.HandleTeamChange` | internal/rota/maintenance.go:228-233 | on the tables earlier teams left: an error exactly for an empty team, otherwise the writes of `EnsureSchedule`, after which the window is full and free of stale covers |
| `Maintenance.ScheduleMaintenance.RegenerateSchedule` | internal/rota/maintenance.go:244-279 | on any well-formed state, equals its specification, carries the rotation invariant, and counts the rows of the range |
| `HatSwaps.PendingPairsAreLive` | internal/database/hat_swaps.go:150-200 | in every reachable state a pending swap captures the live owners of two distinct rows, and no row is in two pending swaps |
| `HatSwaps.FlippedIffAccepted` | internal/database/hat_swaps.go:356-456 | however reads and transactions interleave, a swap flipped its rows exactly once if it ended accepted and never otherwise |
| `HatSwaps.StepIsAtomic` | internal/database/hat_swaps.go:391-456 | a step changes rows only by committing one pending swap, and then exactly by its captured pair |
| `HatSwaps.ClosedForGood` | internal/database/hat_swaps.go:293-312 | a swap that has left pending never changes again |
| `HatSwaps.ReadsBeginIff` | internal/database/hat_swaps.go:356-389 | in every reachable state the read phase takes an acceptance up if and only if the swap is pending, its rows belong to different people now, and neither day has passed |
| `HatSwaps.ReadRefusals` | internal/database/hat_swaps.go:458-502 | which error each refusal of the read phase gives, case by case |
| `HatSwaps.AcceptedWasRead` | internal/database/hat_swaps.go:356-389 | a swap that ends accepted was pending at some read on whose day neither of its rows had passed |
| `HatSwaps.CommitAcceptsIff` | internal/database/hat_swaps.go:391-456 | the transaction accepts exactly the swap its call has read, if that is still pending, and changes no other |
| `HatSwaps.CreateRefusals` | internal/database/hat_swaps.go:150-200 | which error each refusal of a request gives, case by case; only pending swaps make a row busy |
| `HatSwaps.ClosingFrees` | internal/database/hat_swaps.go:293-312 | rejecting or cancelling closes exactly the one pending swap, writes no row, and lets the same request be made again |
| `HatSwaps.ExpiryCancelsIff` | internal/database/hat_swaps.go:325-352 | in every reachable state the cleanup cancels exactly the pending swaps one of whose days has passed, and what is still pending can be accepted on that day |
| `HatSwaps.LoadIsConserved` | internal/database/hat_swaps.go:409-456 | over every run of swaps alone the number of assignments each member holds is constant |
| `HatSwaps.FlipKeepsLoadIff` | internal/database/hat_swaps.go:409-456 | on any rows: writing a captured pair crosswise keeps those numbers exactly when the pair owns the two rows, either way round |
| `HatSwaps.RunKeepsOk` | internal/database/hat_swaps.go:150-456 | the invariant behind these: captured pairs live, last accepted swap of a row explains its owner and mark |
| `HatSwaps.ReplayChangesNothing` | internal/database/hat_swaps.go:817-848 | in every state reached by swaps alone, replaying the accepted log in creation order changes nothing, chains included |
| `HatSwaps.ReplayInAnyOrderIff` | internal/database/hat_swaps.go:817-848 | in any other order the replay is harmless exactly when the last listed swap of each row names its present owner |
| `HatSwaps.ReplayAllIff` | internal/database/hat_swaps.go:817-848 | on any store, rows deleted or not: the replay is harmless exactly when, for each row, the last accepted swap that has both of its rows gave it to whom the last accepted swap of all gave it |
| `HatSwaps.TieBreaksReplay` | internal/database/hat_swaps.go:628-639 | two chained swaps created in one second, read back in the wrong order, do move a row |
| `HatSwaps.ReconcileWritesPair` | internal/database/hat_swaps.go:641-689 | applying one accepted swap writes its captured pair, and a second application reports no drift |
| `HatSwaps.ReconcileReports` | internal/database/hat_swaps.go:641-689 | which error each refusal of a repair gives, what a repair reports for each row, and that a dry run writes nothing |
| `HatSwaps.UndisturbedAccept` | internal/database/hat_swaps.go:356-389 | a created request that is read and committed without interference is accepted and flips its rows |
| `HatSwaps.SwapStore.ValidateCreateHatSwap` | internal/database/hat_swaps.go:150-173 | the checks, in order, and their errors |
| `HatSwaps.SwapStore.CreateHatSwap` | internal/database/hat_swaps.go:176-200 | validation, the pending-row refusal, and the append |
| `HatSwaps.SwapStore.UpdateHatSwapStatus` | internal/database/hat_swaps.go:293-312 | only a pending row changes; otherwise not-pending |
| `HatSwaps.SwapStore.CleanupExpiredPendingSwaps` | internal/database/hat_swaps.go:325-352 | cancels exactly the pending swaps with a past row, and counts them |
| `HatSwaps.SwapStore.LoadSwapAssignmentsForExecution` | internal/database/hat_swaps.go:458-502 | the checks of the read phase, in order |
| `HatSwaps.SwapStore.ExecuteSwapTx` | internal/database/hat_swaps.go:409-456 | four writes, the guard, and the rollback equal one guarded crosswise write |
| `HatSwaps.SwapStore.ExecuteSwap` | internal/database/hat_swaps.go:356-389 | read phase followed by transaction |
| `HatSwaps.SwapStore.ComputeReconcileDrift` | internal/database/hat_swaps.go:734-767 | the field changes of both sides |
| `HatSwaps.SwapStore.ReconcileAcceptedSwap` | internal/database/hat_swaps.go:662-689 | dry run and apply, error cases included |
| `HatSwaps.SwapStore.ReconcileAllAcceptedSwaps` | internal/database/hat_swaps.go:817-848 | one result per accepted swap, each against the rows its predecessors left |
| `Joint.CallRespectsSwaps` | internal/rota/maintenance.go:37-373 | no scheduler call changes a swapped row in place, marks a row as swapped, or issues a row id twice |
| `Joint.ReachIsOk` | internal/database/hat_swaps.go:150-456 | any interleaving of swap phases and scheduler calls, by teams that change, keeps the log invariant: the last accepted swap of a row explains its owner and mark while the row exists |
| `Joint.ReplayIsHarmlessIff` | internal/database/hat_swaps.go:817-848 | after any such interleaving, replaying the log changes nothing if and only if no deleted row took the last swap of another row with it while an older swap that names somebody else is left |
| `Joint.ReplayIsHarmless` | internal/database/hat_swaps.go:817-848 | in particular while every accepted swap has its rows |
| `Witnesses.SweptSwapMovesARow` | internal/rota/maintenance.go:331-373 | otherwise it is not: the sweep takes a swapped cover away, and replaying the log would move another row back to an earlier owner |
| `Joint.SwapActionKeepsLoadIff` | internal/database/hat_swaps.go:458-502 | in any such interleaving a swap phase keeps everybody's number of assignments if and only if the pair of the swap it accepts still owns the rows |
| `Witnesses.StaleOfferMovesLoad` | internal/database/hat_swaps.go:476-493 | otherwise it does not: the cover row of a pending swap is handed to somebody else, the acceptance goes through, and that person loses the day |
| `Joint.CallClosesIff` | internal/database/sqlc/schema.sql:128-141 | a scheduler call closes exactly the pending swaps that lose a row by it |
| `Joint.ReadsBeginIff` | internal/database/hat_swaps.go:458-502 | the read phase takes an acceptance up under the same condition wherever scheduler calls came in between |
| `Joint.SwapStretch` | internal/database/hat_swaps.go:150-456 | a stretch of swap phases is a run of the swap state machine on the rows by id |
| `Joint.CallsAreHistories` | internal/rota/maintenance.go:37-373 | and scheduler calls alone are the histories of `Runs` |
| `RateLimit.WindowBound` | internal/ratelimit/ratelimit.go:39-59 | between any two requests of a key at most capacity plus rate times elapsed are admitted, both ends included |
| `RateLimit.StreamBound` | internal/ratelimit/ratelimit.go:86-95 | the window bound between any two requests of every key of every mixed stream |
| `RateLimit.AdmittedIff` | internal/ratelimit/ratelimit.go:39-59 | exactly which requests of a key are admitted: those that fit, with all admitted before them, into every window that ends with them |
| `RateLimit.StreamAdmittedIff` | internal/ratelimit/ratelimit.go:86-95 | the same for every key of every mixed stream |
| `RateLimit.KeysAreIndependent` | internal/ratelimit/ratelimit.go:86-95 | a key is decided exactly as if it were alone |
| `RateLimit.SpendingIsEarned` | internal/ratelimit/ratelimit.go:39-59 | every admission is paid for by tokens held or earned |
| `RateLimit.WaitAdmitsIff` | internal/ratelimit/ratelimit.go:39-59 | waiting the returned delay admits exactly when the bucket can hold a token and truncation lost nothing; one nanosecond more always does |
| `RateLimit.RetryAfterAdmitsIff` | internal/ratelimit/ratelimit.go:101-115 | waiting the header admits except when the wait is a positive whole number of seconds that hides a lost fraction |
| `RateLimit.RetryAfterCanFallShort` | internal/ratelimit/ratelimit.go:101-115 | such a case, in three requests |
| `RateLimit.WholePeriodWaitsAreHonoured` | internal/ratelimit/ratelimit.go:39-59 | if one token takes a whole number of nanoseconds, both waits always admit |
| `RateLimit.LoginPeriodIsWhole` | internal/web/handler.go:37-38 | the login rate is of that kind |
| `RateLimit.TokenPeriodIsWhole` | internal/api/server.go:45-47 | the token rate is of that kind |
| `RateLimit.HeaderIsLeast` | internal/ratelimit/ratelimit.go:104-112 | the header is the least positive number of seconds that covers the wait |
| `RateLimit.RetryAfterSeconds` | internal/ratelimit/ratelimit.go:104-112 | the imperative rounding computes it |
| `RateLimit.TokenBucket.Take` | internal/ratelimit/ratelimit.go:39-59 | the field updates equal the specification |
| `RateLimit.Limiter.Take` | internal/ratelimit/ratelimit.go:86-95 | a new key gets a full bucket of its own, no other bucket changes |
| `RateLimit.NewBucketIsFull` | internal/ratelimit/ratelimit.go:26-48 | the instant at which a bucket is created does not matter, only when it is first asked |
| `Outbox.DispatchDecreases` | internal/notify/outbox_worker.go:117-176 | every dispatch, delivered or not, strictly lowers the remaining attempts over all pending rows |
| `Outbox.DispatchesAreBounded` | internal/notify/outbox_worker.go:99-176 | with no new rows at most that many dispatches happen, and what is left goes down by at least their number |
| `Outbox.SendsAreBounded` | internal/notify/outbox_worker.go:117-176 | sends of a row match its attempts and status, at most the maximum, none for an unknown channel |
| `Outbox.LastDispatchDecides` | internal/notify/outbox_worker.go:117-176 | over any run a row is what its last dispatch made of it: sent exactly if delivered, dead exactly if its channel is unknown or the attempt was the last, otherwise put off by the delay of that attempt |
| `Outbox.RetriesWait` | internal/notify/outbox_worker.go:99-176 | a row that is claimed again was not delivered before and has waited for the delay of that attempt |
| `Outbox.FinishedForGood` | internal/notify/outbox_worker.go:117-176 | a sent or dead row never changes and is never sent again |
| `Outbox.TicksFinish` | internal/notify/outbox_worker.go:64-113 | with no new rows and uncancelled ticks at any pace, every row is sent or dead once the run contains more ticks, each an hour or more after the end of the one picked before it, than there were attempts left |
| `Outbox.TicksCountDown` | internal/notify/outbox_worker.go:99-113 | each such tick but the first ends a stretch of ticks that used up at least one attempt, also when a delay overflows |
| `Outbox.HourUsesAttempt` | internal/notify/outbox_worker.go:99-113 | any stretch of ticks that spans an hour uses up an attempt, unless none is left |
| `Outbox.PollingFinishes` | internal/notify/outbox_worker.go:72-92 | in time: a worker whose ticks take at most `work` and that polls within `poll`, 30 seconds by default, finishes every row within as many rounds of an hour, `poll` and twice `work` as there were attempts left |
| `Outbox.SpacedTicksFinish` | internal/notify/outbox_worker.go:64-113 | if all ticks are an hour apart and the first finds everything due, as many ticks as there were attempts left suffice |
| `Outbox.TicksTerminate` | internal/notify/outbox_worker.go:99-113 | any uncancelled tick with something due makes progress |
| `Outbox.DelayIsBackoff` | internal/notify/outbox_worker.go:180-189 | without overflow delays are positive, non-decreasing, the formula below one hour and one hour above |
| `Outbox.DelayIsPositiveIff` | internal/notify/outbox_worker.go:180-189 | when a delay is positive at all |
| `Outbox.Worker.ClaimDueOutboxEntries` | internal/database/notification_outbox.go:77-90 | due rows, earliest first, at most a batch, none skipped for a later one |
| `Outbox.Worker.ComputeNextAttempt` | internal/notify/outbox_worker.go:180-189 | the clamped expression |
| `Outbox.Worker.DispatchRow` | internal/notify/outbox_worker.go:117-176 | the four outcomes of a dispatch |
| `Outbox.Worker.Drain` | internal/notify/outbox_worker.go:99-113 | a tick dispatches the claimed rows in order, each still pending, at its own instant, until cancelled |
| `Feeds.FeedsAgree` | internal/calendar/ical.go:1130-1184 | a subscriber's own feed and their others feed render exactly one event for each assigned date of the window, for the person the hat lookup names, and none elsewhere |
| `Feeds.SuppressIsIdempotent` | internal/calendar/ical.go:1047-1069 | suppression keeps the order and is idempotent |
| `Feeds.KeptAre` | internal/calendar/ical.go:1047-1069 | it keeps exactly the covers and the originals nobody covers |
| `Feeds.FeedKeeps` | internal/calendar/ical.go:1020-1069 | a row of a feed is rendered exactly when it is a cover or its date has none, also when the cover is not in the slice |
| `Feeds.UnionWithSliceCovers` | internal/calendar/ical.go:1082-1093 | adds the originals covered inside the slice |
| `Feeds.SuppressCoveredOriginals` | internal/calendar/ical.go:1047-1069 | the loop and its two early returns compute the suppression |
| `Feeds.OthersFeed` | internal/calendar/ical.go:1164-1176 | drops the subscriber's rows, then suppresses |
| `Feeds.GetHatForDate` | internal/calendar/presence.go:355-371 | the cover if there is one, otherwise the original |
| `Shuffle.StableShuffle` | internal/calendar/presence.go:376-389 | the swaps in the copy compute the drawn order, and the input is unchanged |
| `Shuffle.DrawnIsPermutation` | internal/calendar/presence.go:376-389 | whatever is drawn, the result is a permutation |
| `Shuffle.DifferentChoicesDifferentOrders` | internal/calendar/presence.go:376-389 | for distinct members two choice sequences give the same order exactly when they are equal |
| `Shuffle.EveryOrderHasChoices` | internal/calendar/presence.go:376-389 | every order can be drawn |
| `Sanitize.SanitizeICalText` | internal/calendar/ical.go:66-92 | the builder loop and the fixed-point loop terminate with the squeezed text |
| `Sanitize.SanitizedIsClean` | internal/calendar/ical.go:50-92 | no CR, LF, tab, NUL or double space comes out; the texts left alone are exactly the clean ones; idempotent |
| `Sanitize.SanitizedKeepsWords` | internal/calendar/ical.go:50-92 | no word is dropped, merged, split or reordered; a NUL joins what it separated |
| `Sanitize.SanitizedJoin` | internal/calendar/ical.go:66-92 | sanitizing the parts of a text first makes no difference |
| `Sanitize.PassShrinksOrStops` | internal/calendar/ical.go:85-91 | a replacement pass shortens the text or is at the fixed point, which is the absence of double spaces |
| `Token.RoundTripIff` | internal/notify/token.go:68-133 | a minted token gives its member back exactly when the id is non-empty, free of dots, does not start with white space, and the expiry lies ahead |
| `Token.DefaultTokenLifetime` | internal/notify/token.go:57-59 | a default token is good for thirty days and reported expired afterwards |
| `Token.VerifiedIff` | internal/notify/token.go:94-133 | exactly which texts are accepted, and for whom |
| `Token.SignatureBindsMemberAndExpiry` | internal/notify/token.go:31-34 | with a digest that never repeats, a signature minted for one member and expiry vouches for no other |
| `Token.AcceptanceOnlyEnds` | internal/notify/token.go:109-118 | a token accepted at some time was accepted at every earlier one |
| `Token.FormatParses` | internal/notify/token.go:105-108 | decimal expiries parse back, within 64 bits only |
| `Token.ThreeParts` | internal/notify/token.go:97-101 | a text has one reading as three dot-free parts |

## Left out

- HTTP handlers, dashboard, templates, OAuth, sessions, command line, backup, configuration: input, output and wiring.
- The seat-cap picker for working from home, birthdays, holiday import and presence flags (`splitActiveByFlags`): independent of the duty rota.
- Notifications about new covers, logging and the schedule-gap report: they do not change scheduler state.
- Store failures: every query succeeds, except that inserts hit the unique keys and the pending-swap trigger; so `Failures` of a reassign run stays empty.
- Concurrency of schedulers and of outbox workers: one scheduler and one worker at a time; only swap acceptances interleave. Mutexes are not modelled.
- `DeleteHatSwap`: entries leave the swap log only together with a row.
- Joint.Cascaded: keeps the position of an entry that goes with a deleted row, closed if it was pending and skipped by a replay if it was accepted; a later call that names it gets not-pending where the program finds nothing.
- Creating, editing and deleting leaves through the database layer appears in `Runs.Apply` only, as a change of the leave list.
- Cascades of deleted team members: their rows, leaves and swaps go, and covers of their rows lose the original they point at. Histories with changing teams cover members who join, are activated, deactivated or renamed.
- Runs.OriginalsArePathIndependent: relative to one team, like the fairness of originals; after a change of team the stored R1 rows need not agree.
- Maintenance.SortByStartDate: keeps leaves with equal start dates in reading order, where the host sort leaves that open; the theorems of `Reassign` hold for every order.
- HatSwaps.SwapStore.GetAcceptedSwaps: reads in log order; ties of the one-second creation time are the subject of `HatSwaps.TieBreaksReplay`.
- RateLimit.TokenBucket.Take: exact arithmetic on tokens; floating-point rounding is not modelled, and the clock does not run backwards in the bounds.
- Outbox.Worker.ComputeNextAttempt: exact arithmetic below the 64-bit limit; the value of an overflowing conversion is a parameter.
- Feeds.FeedsAgree: both feeds and the covered-original query use one window and one table; the two clocks the program reads, event texts and the lookup of member names are not modelled.
- Text.ToLower: ASCII letters only. Strings are sequences of characters, so invalid UTF-8 does not occur.
- Token.SignatureBindsMemberAndExpiry: assumes that the digest never repeats for a secret; the digest and the byte encoding themselves are not part of this model.
- Identifiers are numbers, fresh ones counted up; an empty identifier does not occur. Indices are unbounded integers.
