# ShiftCraft business rules in Dafny

ShiftCraft is a workforce-scheduling application. This project models its business-rule layer
and proves properties about it. That layer has four parts:

- the **timesheet engine**: per-entry hours, totals with a 40-hour overtime split, and timesheet
  generation, manual entries and the DRAFT → SUBMITTED → APPROVED lifecycle;
- the **leave rules**: submit, approve, reject, cancel and the approved-leave check, all built on
  the inclusive interval-overlap test of the leave queries;
- the **shift and assignment engine**: templates, one dated instance per (template, date),
  publishing, and assigning users to draft instances;
- the **schedule aggregator**: Monday-based week views, same-date double bookings, per-date
  availability and the STAFF availability map.

The data lives in a `Store` with one map from id to record per entity. Every operation is a pure
function from a store to `Result<Store>`. The four failure kinds are NotFound, InvalidArgument,
Conflict and InvalidState. Conflict and InvalidState both stand for `IllegalStateException`: the
first for a uniqueness or overlap clash, the second for a status that forbids the transition.

Representations:

- Dates are epoch days (day 0, 1970-01-01, was a Thursday).
- Times of day are minutes in `[0, 1440)`.
- Hours are integer hundredths. `BigDecimal.valueOf(m).divide(60, 2, HALF_UP)` is `MinutesToHours(m)`,
  the integer nearest to 5m/3 with ties away from zero.
- Query results are sets of ids, because the database's row order is unspecified. The one
  ordered query, `findPendingRequests`, is a method that returns a sorted sequence.
- The entry table is the sequence `entryLog`, in save order. A timesheet's `entries` field is
  the in-memory list its totals are computed from.

One file per source class, plus `common.dfy` (ids, `Option`, `Result`, errors, the map-update
predicate `Replaces`), `calendar.dfy` (dates, weeks, overlap) and `decimal.dfy` (HALF_UP).

## Behaviour of the code worth knowing

- Entry and template durations are a plain `end - start - break`. Nothing wraps past midnight
  and nothing clamps the value, so a shift whose end time is earlier than its start time, such
  as the seeded 20:00–04:00 night shift, gets negative hours (−16.50).
- `addManualEntry` saves the new entry but does not add it to the timesheet's in-memory entry
  list, so the totals that call recomputes leave it out
  (`TimesheetService.ManualEntryNotInTotals`).
- The period and leave checks reject only `start.isAfter(end)`, so a single-day period or
  request is accepted.
- `assignUserToShift` reads neither `maxAssignments`, nor leave, nor availability.
  `createShiftInstance` never reads `isActive`.
- No operation sets a timesheet to REJECTED; every timesheet operation preserves
  `NoRejectedTimesheet`.
- `generateWeeklyTimesheet` takes the given start date as the period start; it is not moved back
  to a Monday.
- A negative template break is refused with InvalidArgument: the `@PositiveOrZero` constraint,
  enforced when the template is saved, after the location and role lookups.
- `getStaffAvailability` enumerates dates with `datesUntil(end + 1)`. That call throws
  `IllegalArgumentException` when `start > end + 1`, but only once there is a STAFF user to
  enumerate for; the model returns InvalidArgument in exactly that case.

## Model

| member | source | states |
|---|---|---|
| Calendar.OverlapsIffSharedDay | backend/src/main/java/com/example/shiftcraft/persistence/repository/LeaveRequestRepository.java:27-31 | for well-formed periods, the query's test `start <= otherEnd && end >= otherStart` holds iff the two periods share at least one day, including a single touching day |
| Calendar.OverlapsSymmetric | backend/src/main/java/com/example/shiftcraft/persistence/repository/LeaveRequestRepository.java:30-31 | the overlap test gives the same answer with the two periods swapped, so "A overlaps B" and "B overlaps A" agree |
| Calendar.WeekStart | backend/src/main/java/com/example/shiftcraft/application/service/ScheduleService.java:41 | `previousOrSame(MONDAY)`: the result is a Monday, on or at most six days before the date |
| Calendar.WeekEnd | backend/src/main/java/com/example/shiftcraft/application/service/ScheduleService.java:42 | `weekStart.plusDays(6)` is a Sunday and the date lies between the week's start and end |
| Calendar.WeekStartUnique | backend/src/main/java/com/example/shiftcraft/application/service/ScheduleService.java:41 | the Monday of a date is unique: any Monday at most six days before the date is the one `WeekStart` returns |
| Calendar.SameWeek | backend/src/main/java/com/example/shiftcraft/application/service/ScheduleService.java:41-42 | every date of the window `[weekStart, weekEnd]` has that same week start |
| Calendar.DayOfWeek | backend/src/main/java/com/example/shiftcraft/application/service/ScheduleService.java:41 | the ISO day of week lies in 1..7 |
| Calendar.DaysInCount | backend/src/main/java/com/example/shiftcraft/persistence/entity/LeaveRequest.java:107-109 | an inclusive range `[a, b]` holds `b - a + 1` days (none when `a = b + 1`) |
| Calendar.WithinIffSubset | backend/src/main/java/com/example/shiftcraft/persistence/repository/TimesheetRepository.java:22-26 | the containment test `periodStart >= start && periodEnd <= end` holds iff every day of the timesheet period is a day of `[start, end]` |
| Decimal.DivHalfUp | backend/src/main/java/com/example/shiftcraft/persistence/entity/TimesheetEntry.java:105 | `divide(den, HALF_UP)` in integers: the quotient nearest to `num / den`, with ties away from zero on both signs |
| Decimal.MinutesToHours | backend/src/main/java/com/example/shiftcraft/persistence/entity/TimesheetEntry.java:102-105 | minutes to hundredths of an hour, rounded half-up: `-1 <= 3h - 5m <= 1`, and the sign is kept |
| Decimal.MinutesToHoursUnique | backend/src/main/java/com/example/shiftcraft/persistence/entity/TimesheetEntry.java:105 | exactly one value of hundredths lies within a third of `5m/3`, so the rounding is determined |
| Decimal.MinutesToHoursOdd | backend/src/main/java/com/example/shiftcraft/persistence/entity/TimesheetEntry.java:105 | HALF_UP is symmetric about zero: negating the minutes negates the hours |
| Decimal.MinutesToHoursMonotone | backend/src/main/java/com/example/shiftcraft/persistence/entity/TimesheetEntry.java:102-105 | more minutes never give fewer hours |
| Decimal.WholeHoursExact | backend/src/main/java/com/example/shiftcraft/persistence/entity/TimesheetEntry.java:102-105 | a whole number of hours of minutes converts exactly: `60 * m` minutes give `m.00` hours |
| TimesheetEntries.ExpectedHours | backend/src/main/java/com/example/shiftcraft/persistence/entity/TimesheetEntry.java:100-106 | the hours of a span are the worked minutes (null break counted as 0) over 60 rounded half-up |
| TimesheetEntries.CalculateHours | backend/src/main/java/com/example/shiftcraft/persistence/entity/TimesheetEntry.java:100-106 | with both times present only `hours` changes, to the rounded worked time; with a null time the entry is unchanged |
| TimesheetEntries.SaveMakesConsistent | backend/src/main/java/com/example/shiftcraft/persistence/entity/TimesheetEntry.java:108-112 | after the persist/update hook the stored hours match the stored times and break; saving again changes nothing; an entry is unchanged by a save iff it was already consistent |
| TimesheetEntries.NewEntry | backend/src/main/java/com/example/shiftcraft/persistence/entity/TimesheetEntry.java:41-66 | the constructor computes hours at once, so a new entry carries hours and they match its times |
| TimesheetEntries.SetBreakLeavesHoursStale | backend/src/main/java/com/example/shiftcraft/persistence/entity/TimesheetEntry.java:41-88 | after `setBreakMinutes(b)` the hours still reflect a zero break, and differ from what a save computes iff `b != 0` |
| TimesheetEntries.DayShiftExample | backend/src/main/java/com/example/shiftcraft/persistence/entity/TimesheetEntry.java:100-106 | 09:00–17:00 with a 30-minute break is 7.50 hours |
| TimesheetEntries.NightShiftIsNegative | backend/src/main/java/com/example/shiftcraft/persistence/entity/TimesheetEntry.java:102-104 | 20:00–04:00 with a 30-minute break is −16.50 hours: no midnight wrap and no clamp |
| Timesheets.NewTimesheet | backend/src/main/java/com/example/shiftcraft/persistence/entity/Timesheet.java:33-70 | a new timesheet is DRAFT, with zero totals, no entries and no approval, for the given user and period |
| Timesheets.SumHoursAppend | backend/src/main/java/com/example/shiftcraft/persistence/entity/Timesheet.java:111-113 | the hour sum of a concatenation is the sum of the parts' sums |
| Timesheets.SumHoursPermutation | backend/src/main/java/com/example/shiftcraft/persistence/entity/Timesheet.java:111-113 | the hour sum does not depend on the order of the entries: any reordering of the list has the same sum |
| Timesheets.CalculateTotals | backend/src/main/java/com/example/shiftcraft/persistence/entity/Timesheet.java:110-124 | only the three totals change; total is the sum of the hours; above 40.00 regular is 40.00 and overtime the excess, otherwise overtime is 0; always regular + overtime = total, regular ≤ 40.00 and overtime ≥ 0 |
| Timesheets.CalculateTotalsIdempotent | backend/src/main/java/com/example/shiftcraft/persistence/entity/Timesheet.java:110-124 | recomputing the totals of an unchanged list changes nothing |
| Timesheets.CalculateTotalsIgnoresOldTotals | backend/src/main/java/com/example/shiftcraft/persistence/entity/Timesheet.java:110-124 | the totals depend only on the entry list, never on the totals stored before |
| Timesheets.TotalsExample | backend/src/test/java/com/example/shiftcraft/application/service/TimesheetServiceTest.java:348-371 | entries of 8.00, 7.50 and 40.00 hours give total 55.50, regular 40.00 and overtime 15.50 |
| Timesheets.TotalsBoundary | backend/src/main/java/com/example/shiftcraft/persistence/entity/Timesheet.java:116-123 | exactly 40.00 hours gives no overtime, 40.01 gives 0.01 of overtime, and an empty list gives all zeros |
| LeaveRequests.NewLeaveRequest | backend/src/main/java/com/example/shiftcraft/persistence/entity/LeaveRequest.java:37-70 | a new request is PENDING, requested now, unreviewed, and carries the given user, dates, type and reason |
| LeaveRequests.DurationCountsDays | backend/src/main/java/com/example/shiftcraft/persistence/entity/LeaveRequest.java:107-109 | `getDurationDays` is the number of days in the inclusive period; a single-day request lasts 1 day |
| LeaveRequests.PendingApprovedLive | backend/src/main/java/com/example/shiftcraft/persistence/entity/LeaveRequest.java:111-117 | `isPending` and `isApproved` never both hold, and together they are exactly the live statuses the queries look for |
| ShiftTemplates.NewTemplate | backend/src/main/java/com/example/shiftcraft/persistence/entity/ShiftTemplate.java:42-77 | the constructor stores name, location, role and times unchanged, with break 0, one assignment and active |
| ShiftTemplates.DurationMatchesWorkedMinutes | backend/src/main/java/com/example/shiftcraft/persistence/entity/ShiftTemplate.java:117-119 | the template duration is the same worked span an entry computes, and is negative for a valid template that ends before it starts |
| ShiftTemplates.NightShiftDuration | backend/src/main/java/com/example/shiftcraft/application/config/DataLoader.java:102-104 | the seeded 20:00–04:00 night shift with a 30-minute break lasts −990 minutes, i.e. −16.50 hours |
| ShiftInstances.NewInstance | backend/src/main/java/com/example/shiftcraft/persistence/entity/ShiftInstance.java:28-55 | a new instance is DRAFT and unpublished, for the given template and date |
| ShiftInstances.StatusHelpers | backend/src/main/java/com/example/shiftcraft/persistence/entity/ShiftInstance.java:83-89 | a new instance can be modified and is not published; a published instance cannot be modified |
| Assignments.NewAssignment | backend/src/main/java/com/example/shiftcraft/persistence/entity/Assignment.java:26-53 | a new assignment is ACTIVE, assigned now, with the given instance, user and assigner and no notes |
| LeaveRequestRepository.FindByUserId | backend/src/main/java/com/example/shiftcraft/persistence/repository/LeaveRequestRepository.java:15 | a request is found iff it is stored and belongs to the user, whatever its status |
| LeaveRequestRepository.FindByStatus | backend/src/main/java/com/example/shiftcraft/persistence/repository/LeaveRequestRepository.java:17 | a request is found iff it is stored and in the status, whoever it belongs to |
| LeaveRequestRepository.FindApprovedLeaveInPeriod | backend/src/main/java/com/example/shiftcraft/persistence/repository/LeaveRequestRepository.java:27-28 | a request is found iff it is APPROVED, of any user, and passes the overlap test against `[start, end]` |
| LeaveRequestRepository.FindUserLeaveInPeriod | backend/src/main/java/com/example/shiftcraft/persistence/repository/LeaveRequestRepository.java:30-31 | a request is found iff it is the user's, PENDING or APPROVED, and passes the overlap test against `[start, end]` |
| LeaveRequestRepository.FindByUserIdAndStatus | backend/src/main/java/com/example/shiftcraft/persistence/repository/LeaveRequestRepository.java:24-25 | the requests matching both user and status are the intersection of the by-user and by-status lookups |
| LeaveRequestRepository.UserLeaveInPeriodIsSharedDay | backend/src/main/java/com/example/shiftcraft/persistence/repository/LeaveRequestRepository.java:30-31 | a request is found iff it is the user's, PENDING or APPROVED, and shares a day with the period |
| LeaveRequestRepository.ApprovedQueriesAgree | backend/src/main/java/com/example/shiftcraft/persistence/repository/LeaveRequestRepository.java:27-31 | the user's APPROVED requests among the per-user results are the user's requests among the global approved-in-period results |
| LeaveRequestRepository.FindPendingRequests | backend/src/main/java/com/example/shiftcraft/persistence/repository/LeaveRequestRepository.java:21-22 | returns exactly the PENDING requests, each once, ordered by `requestedAt` ascending |
| LeaveRequestRepository.LookupsPartition | backend/src/main/java/com/example/shiftcraft/persistence/repository/LeaveRequestRepository.java:15-17 | every request is found under exactly one status, and two users' lookups never share a request |
| TimesheetRepository.FindByUserId | backend/src/main/java/com/example/shiftcraft/persistence/repository/TimesheetRepository.java:16 | a timesheet is found iff it is stored and belongs to the user |
| TimesheetRepository.FindByStatus | backend/src/main/java/com/example/shiftcraft/persistence/repository/TimesheetRepository.java:18 | a timesheet is found iff it is stored and in the status |
| TimesheetRepository.FindByUserIdAndPeriod | backend/src/main/java/com/example/shiftcraft/persistence/repository/TimesheetRepository.java:20 | a timesheet is found iff it is the user's and its period starts and ends exactly on the given dates |
| TimesheetRepository.FindByPeriodRange | backend/src/main/java/com/example/shiftcraft/persistence/repository/TimesheetRepository.java:25-26 | a timesheet of any user is found iff its period starts no earlier than `start` and ends no later than `end` |
| TimesheetRepository.AtMostOneTimesheetPerPeriod | backend/src/main/java/com/example/shiftcraft/persistence/repository/TimesheetRepository.java:20 | under the uniqueness invariant, the exact (user, start, end) lookup finds at most one timesheet |
| TimesheetRepository.FindByUserIdAndPeriodRange | backend/src/main/java/com/example/shiftcraft/persistence/repository/TimesheetRepository.java:22-23 | the per-user range query is the user's part of the global range query |
| TimesheetRepository.PeriodRangeIsContainment | backend/src/main/java/com/example/shiftcraft/persistence/repository/TimesheetRepository.java:25-26 | a well-formed timesheet is found by the range query iff every day of its period lies in `[start, end]` |
| TimesheetRepository.LookupsPartition | backend/src/main/java/com/example/shiftcraft/persistence/repository/TimesheetRepository.java:16-18 | every timesheet is found under exactly one status, and two users' lookups never share a timesheet |
| ShiftInstanceRepository.FindByShiftDate | backend/src/main/java/com/example/shiftcraft/persistence/repository/ShiftInstanceRepository.java:16 | an instance is found iff it is stored and dated on the day, whatever its status |
| ShiftInstanceRepository.FindByTemplateId | backend/src/main/java/com/example/shiftcraft/persistence/repository/ShiftInstanceRepository.java:20 | an instance is found iff it is stored and made from the template |
| ShiftInstanceRepository.FindByStatus | backend/src/main/java/com/example/shiftcraft/persistence/repository/ShiftInstanceRepository.java:24 | an instance is found iff it is stored and in the status |
| ShiftInstanceRepository.FindByShiftDateBetween | backend/src/main/java/com/example/shiftcraft/persistence/repository/ShiftInstanceRepository.java:18 | an instance is found iff it is stored and dated in `[start, end]`, both ends included; every single-date lookup of the range is contained in the result |
| ShiftInstanceRepository.FindByTemplateIdAndShiftDate | backend/src/main/java/com/example/shiftcraft/persistence/repository/ShiftInstanceRepository.java:22 | the (template, date) lookup is the intersection of the by-template and by-date lookups |
| ShiftInstanceRepository.AtMostOneInstancePerTemplateAndDate | backend/src/main/java/com/example/shiftcraft/persistence/repository/ShiftInstanceRepository.java:22 | under the uniqueness invariant the (template, date) lookup finds at most one instance |
| ShiftInstanceRepository.FindPublishedShiftsInPeriod | backend/src/main/java/com/example/shiftcraft/persistence/repository/ShiftInstanceRepository.java:26-27 | the published-in-period query is the range query cut to PUBLISHED |
| ShiftInstanceRepository.FindByLocationAndDate | backend/src/main/java/com/example/shiftcraft/persistence/repository/ShiftInstanceRepository.java:29-30 | an instance is found iff it is dated on the date and its stored template is at the location |
| ShiftInstanceRepository.LocationsSplitDate | backend/src/main/java/com/example/shiftcraft/persistence/repository/ShiftInstanceRepository.java:29-30 | two locations never share an instance of a date, and every instance of the date is found under its own template's location |
| ShiftInstanceRepository.SingleDayRange | backend/src/main/java/com/example/shiftcraft/persistence/repository/ShiftInstanceRepository.java:16-18 | a one-day range finds exactly the instances of that date |
| ShiftInstanceRepository.LookupsPartition | backend/src/main/java/com/example/shiftcraft/persistence/repository/ShiftInstanceRepository.java:16-24 | every instance is found under exactly one status, and lookups for two different dates or templates never share an instance |
| AssignmentRepository.FindByUserId | backend/src/main/java/com/example/shiftcraft/persistence/repository/AssignmentRepository.java:15 | an assignment is found iff it is stored and belongs to the user, whatever its status |
| AssignmentRepository.FindByShiftInstanceId | backend/src/main/java/com/example/shiftcraft/persistence/repository/AssignmentRepository.java:17 | an assignment is found iff it is stored and on the instance, whatever its status |
| AssignmentRepository.FindByStatus | backend/src/main/java/com/example/shiftcraft/persistence/repository/AssignmentRepository.java:19 | an assignment is found iff it is stored and in the status |
| AssignmentRepository.FindByUserIdAndDate | backend/src/main/java/com/example/shiftcraft/persistence/repository/AssignmentRepository.java:21-22 | an assignment is found iff it is the user's and its shift instance is dated on the date |
| AssignmentRepository.FindByUserIdAndDateRange | backend/src/main/java/com/example/shiftcraft/persistence/repository/AssignmentRepository.java:24-25 | an assignment is found iff it is the user's and its shift instance is dated in `[start, end]`, both ends included |
| AssignmentRepository.FindActiveAssignmentsInPeriod | backend/src/main/java/com/example/shiftcraft/persistence/repository/AssignmentRepository.java:27-28 | an assignment of any user is found iff it is ACTIVE and its stored shift instance is dated in `[start, end]`, both ends included |
| AssignmentRepository.DateRangeIsUnionOfDates | backend/src/main/java/com/example/shiftcraft/persistence/repository/AssignmentRepository.java:21-25 | the inclusive range query is the union of the single-date queries over the range |
| AssignmentRepository.ActiveInPeriodPerUser | backend/src/main/java/com/example/shiftcraft/persistence/repository/AssignmentRepository.java:24-28 | one user's part of the ACTIVE-in-period query is that user's range query cut to ACTIVE |
| AssignmentRepository.LookupsPartition | backend/src/main/java/com/example/shiftcraft/persistence/repository/AssignmentRepository.java:15-19 | every assignment is found under exactly one of the five statuses, and lookups for two users or two instances never share an assignment |
| LeaveService.SubmitLeaveRequest | backend/src/main/java/com/example/shiftcraft/application/service/LeaveService.java:32-56 | NotFound for an unknown user first, then InvalidArgument for `start > end` or `start < today`, then Conflict for an overlapping live request of the user; success iff none applies, adding one PENDING request and changing nothing else |
| LeaveService.ClashIffUserLeaveFound | backend/src/main/java/com/example/shiftcraft/application/service/LeaveService.java:47-52 | the clash test is exactly a non-empty answer from the per-user overlap query |
| LeaveService.SubmitPreservesNoLiveOverlap | backend/src/main/java/com/example/shiftcraft/application/service/LeaveService.java:47-55 | a successful submit keeps the live requests of every user pairwise non-overlapping |
| LeaveService.ApproveLeaveRequest | backend/src/main/java/com/example/shiftcraft/application/service/LeaveService.java:69-83 | NotFound, or InvalidState unless PENDING; success iff PENDING, recording APPROVED, approver, time and notes and nothing else |
| LeaveService.RejectLeaveRequest | backend/src/main/java/com/example/shiftcraft/application/service/LeaveService.java:88-102 | as approve, recording REJECTED |
| LeaveService.ApproveTwiceFails | backend/src/test/java/com/example/shiftcraft/application/service/LeaveServiceTest.java:193-204 | approving an approved request fails with InvalidState |
| LeaveService.CancelLeaveRequest | backend/src/main/java/com/example/shiftcraft/application/service/LeaveService.java:141-155 | NotFound; InvalidState for a non-owner even on a PENDING request; InvalidState for the owner unless PENDING; success sets CANCELLED and leaves the reviewer fields as they were |
| LeaveService.TransitionsPreserveNoLiveOverlap | backend/src/main/java/com/example/shiftcraft/application/service/LeaveService.java:69-155 | approve, reject and cancel never create two overlapping live requests of one user |
| LeaveService.HasApprovedLeave | backend/src/main/java/com/example/shiftcraft/application/service/LeaveService.java:124-128 | true iff some APPROVED request of the user overlaps the period |
| LeaveService.HasApprovedLeaveMatchesApprovedQuery | backend/src/test/java/com/example/shiftcraft/application/service/LeaveServiceTest.java:241-275 | `hasApprovedLeave` agrees with the global approved-in-period query restricted to the user, and removing a PENDING request never changes its answer |
| LeaveService.OverlappingSecondRequestConflicts | backend/src/test/java/com/example/shiftcraft/application/service/LeaveServiceTest.java:129-144 | with a known user, 2024-06-10..12 is accepted as PENDING, and a following 2024-06-11..13 request of that user fails with Conflict |
| ShiftService.CreateShiftTemplate | backend/src/main/java/com/example/shiftcraft/application/service/ShiftService.java:44-57 | NotFound for the location (checked first) or the role, InvalidArgument for a negative break; success adds one active template with the given break and a duration of span minus break |
| ShiftService.CreateShiftInstance | backend/src/main/java/com/example/shiftcraft/application/service/ShiftService.java:78-92 | NotFound for the template, Conflict if an instance exists on the date; success adds one DRAFT instance and keeps one instance per (template, date) and every template resolvable |
| ShiftService.InstanceExistsIffFound | backend/src/main/java/com/example/shiftcraft/application/service/ShiftService.java:83-88 | the existence test is exactly a non-empty (template, date) lookup |
| ShiftService.SecondInstanceConflicts | backend/src/main/java/com/example/shiftcraft/application/service/ShiftService.java:82-88 | creating an instance twice for one (template, date) fails the second time with Conflict |
| ShiftService.PublishShiftInstance | backend/src/main/java/com/example/shiftcraft/application/service/ShiftService.java:97-110 | NotFound, or InvalidState unless DRAFT; success sets PUBLISHED, publisher and time only |
| ShiftService.AssignUserToShift | backend/src/main/java/com/example/shiftcraft/application/service/ShiftService.java:115-138 | NotFound for the instance then the user, InvalidState unless DRAFT (also for CANCELLED), Conflict if the user already holds an ACTIVE assignment on it; success adds one ACTIVE assignment and keeps one ACTIVE per (user, instance) |
| ShiftService.ActivelyAssignedIffFound | backend/src/main/java/com/example/shiftcraft/application/service/ShiftService.java:127-130 | the duplicate test is exactly the scan of the instance's assignments for an ACTIVE one of the user |
| ShiftService.MaxAssignmentsNotEnforced | backend/src/main/java/com/example/shiftcraft/application/service/ShiftService.java:115-138 | two different users can both be assigned to a draft instance whose template allows one assignment |
| ShiftService.NoAssignmentAfterPublish | backend/src/main/java/com/example/shiftcraft/application/service/ShiftService.java:122-124 | after a successful publish, assigning anyone to that instance fails with InvalidState |
| ShiftService.PublishClosesAssignments | backend/src/main/java/com/example/shiftcraft/application/service/ShiftService.java:78-138 | create a DRAFT instance, assign one user, publish, then another user's assignment fails with InvalidState |
| ShiftService.AssignIgnoresLeave | backend/src/main/java/com/example/shiftcraft/application/service/ShiftService.java:115-138 | whether an assignment succeeds does not depend on the leave table |
| ShiftService.CancelAssignment | backend/src/main/java/com/example/shiftcraft/application/service/ShiftService.java:167-180 | NotFound, or InvalidState unless ACTIVE; success sets CANCELLED, the reason as notes and the update time only |
| ShiftService.ReassignAfterCancel | backend/src/main/java/com/example/shiftcraft/application/service/ShiftService.java:167-180 | a cancelled assignment no longer blocks: the same user can be assigned to the draft instance again |
| ShiftService.UpdateShiftTemplate | backend/src/main/java/com/example/shiftcraft/application/service/ShiftService.java:193-201 | NotFound, else only name and description change, so the duration is unchanged |
| ShiftService.DeactivateShiftTemplate | backend/src/main/java/com/example/shiftcraft/application/service/ShiftService.java:206-212 | NotFound, else only `isActive` changes, to false |
| ShiftService.DeactivateIdempotentAndIgnored | backend/src/main/java/com/example/shiftcraft/application/service/ShiftService.java:206-212 | deactivating twice is the same as once, and a deactivated template accepts new instances exactly as before |
| ScheduleService.GetWeeklySchedule | backend/src/main/java/com/example/shiftcraft/application/service/ScheduleService.java:40-54 | the week is the Monday-to-Sunday window containing the date; it holds exactly the PUBLISHED instances in it, the ACTIVE assignments dated in it and the APPROVED leave overlapping it |
| ScheduleService.WeeklyScheduleIsPerWeek | backend/src/main/java/com/example/shiftcraft/application/service/ScheduleService.java:41-42 | every date of one week yields the same weekly schedule |
| ScheduleService.GetUserWeeklySchedule | backend/src/main/java/com/example/shiftcraft/application/service/ScheduleService.java:60-74 | NotFound iff the user is unknown; otherwise the same week, the user's assignments of any status dated in it and the user's PENDING or APPROVED leave overlapping it |
| ScheduleService.UserViewAgreesWithWeeklyView | backend/src/main/java/com/example/shiftcraft/application/service/ScheduleService.java:40-74 | the user's ACTIVE assignments and APPROVED leave of the week are exactly the user's part of the all-users schedule |
| ScheduleService.GetScheduleConflicts | backend/src/main/java/com/example/shiftcraft/application/service/ScheduleService.java:80-92 | each conflict is on a date in range, holds exactly the user's assignments on that date (any status) and more than one of them; each date appears at most once; any two assignments of the user on one date in range are reported together |
| ScheduleService.IsUserAvailableForShift | backend/src/main/java/com/example/shiftcraft/application/service/ScheduleService.java:98-115 | available iff the user has no ACTIVE assignment on the date and no APPROVED leave covering it; other assignment statuses and PENDING leave do not block |
| ScheduleService.AvailabilityUsesApprovedLeave | backend/src/main/java/com/example/shiftcraft/application/service/ScheduleService.java:111-114 | the leave half of availability is the approved-leave check on the one-day period |
| ScheduleService.AvailableDates | backend/src/main/java/com/example/shiftcraft/application/service/ScheduleService.java:134-138 | strictly ascending, and a date is listed iff it lies in `[start, end]` and the user is available on it |
| ScheduleService.GetStaffAvailability | backend/src/main/java/com/example/shiftcraft/application/service/ScheduleService.java:121-138 | InvalidArgument iff there is a STAFF user and `start > end + 1`; otherwise one key per STAFF user, each mapped to the ascending list of that user's available dates in `[start, end]` |
| TimesheetService.EntryFromAssignment | backend/src/main/java/com/example/shiftcraft/application/service/TimesheetService.java:185-197 | the saved entry is dated on the shift, takes the template's times and break, links the assignment, is SHIFT, is described as "Shift: " and the template name, and carries the template's duration in hours |
| TimesheetService.WorkedAssignments | backend/src/main/java/com/example/shiftcraft/application/service/TimesheetService.java:60-66 | an assignment is turned into an entry iff it is the user's, ACTIVE or COMPLETED, and its shift is dated in the period |
| TimesheetService.TimesheetExistsIffFound | backend/src/main/java/com/example/shiftcraft/application/service/TimesheetService.java:48-53 | the existence test is exactly a non-empty exact-period lookup |
| TimesheetService.GenerateTimesheet | backend/src/main/java/com/example/shiftcraft/application/service/TimesheetService.java:38-77 | NotFound for the user first, InvalidArgument for `start > end`, Conflict for an existing (user, start, end) timesheet; success adds one DRAFT timesheet with one entry per worked assignment (each once), appends those entries to the entry table, and sets totals consistent with its list; it preserves unique periods, priced lists and the absence of REJECTED |
| TimesheetService.BuildEntries | backend/src/main/java/com/example/shiftcraft/application/service/TimesheetService.java:64-72 | the loop over the query's assignments, in any order, yields exactly one generated entry per worked assignment |
| TimesheetService.DistinctSameElements | backend/src/main/java/com/example/shiftcraft/application/service/TimesheetService.java:64-72 | two lists without repetitions and with the same elements are reorderings of each other |
| TimesheetService.GenerationOrderIrrelevant | backend/src/main/java/com/example/shiftcraft/application/service/TimesheetService.java:60-76 | any two generated entry lists for one period have the same hour sum, whatever order the assignments came in |
| TimesheetService.NoWorkedAssignmentsGivesZero | backend/src/main/java/com/example/shiftcraft/application/service/TimesheetService.java:56-76 | a period with no worked assignment gives no entries and zero total, regular and overtime hours |
| TimesheetService.DayShiftTimesheetScenario | backend/src/main/java/com/example/shiftcraft/application/service/TimesheetService.java:56-76 | one worked 09:00–17:00 assignment with a 30-minute break in 2024-06-10..14 gives one SHIFT entry of 7.50 hours and totals 7.50 / 7.50 / 0 |
| TimesheetService.GenerateWeeklyTimesheet | backend/src/main/java/com/example/shiftcraft/application/service/TimesheetService.java:177-180 | the period is `[weekStart, weekStart + 6]` with the start not moved to a Monday; it never fails with InvalidArgument |
| TimesheetService.AddManualEntry | backend/src/main/java/com/example/shiftcraft/application/service/TimesheetService.java:82-104 | NotFound, or InvalidState unless DRAFT; success saves a MANUAL_ADJUSTMENT entry with the given date, times, break, description and rounded hours, and recomputes the totals over the unchanged in-memory entry list |
| TimesheetService.ManualEntryNotInTotals | backend/src/main/java/com/example/shiftcraft/application/service/TimesheetService.java:92-100 | on a timesheet with current totals, adding a manual entry leaves every timesheet unchanged; the total this call computes falls short of the sum with the entry by exactly its hours |
| TimesheetService.SubmitTimesheet | backend/src/main/java/com/example/shiftcraft/application/service/TimesheetService.java:136-146 | NotFound, or InvalidState unless DRAFT; success changes only the status, to SUBMITTED |
| TimesheetService.ApproveTimesheet | backend/src/main/java/com/example/shiftcraft/application/service/TimesheetService.java:151-164 | NotFound, or InvalidState unless SUBMITTED; success records APPROVED, approver and time only |
| TimesheetService.Lifecycle | backend/src/main/java/com/example/shiftcraft/application/service/TimesheetService.java:136-164 | a draft cannot be approved directly; submit then approve succeeds and records the approver; neither step can be repeated |

## Left out

- Web controllers, security, `UserService` and `DataLoader`: these are HTTP, authentication and
  seeding plumbing. The one seeded night shift appears as a concrete example.
- Users are reduced to the set of their role names. Locations and roles are reduced to ids.
  Skills and skill requirements are not modelled.
- The read-only pass-through accessors (`getPendingLeaveRequests`, `getUserLeaveRequests`,
  `getLeaveRequestsByStatus`, `getApprovedLeaveInPeriod`, `getShiftsInDateRange`,
  `getPublishedShiftsInDateRange`, `getUserAssignmentsInDateRange`, `getTimesheet`,
  `getUserTimesheets`, `getTimesheetsByStatus`, `calculateOvertimeHours`) are left out. Each one
  returns a repository query or a field that is already modelled.
- `ShiftService`'s template listings and the location and role listings are left out. They go
  through `ShiftTemplateRepository`, `LocationRepository` and `RoleRepository`, which are not
  part of this model.
- `findByLeaveType` is left out. No service calls it.
- The wall clock is a parameter. `LocalDate.now()` and `LocalDateTime.now()` are passed in as
  `today` and `now`.
- UUID generation is a parameter. A fresh id is passed in, with the precondition that it is not
  already in the table.
- JPA and transactions are not modelled. Cascades, lazy loading and transaction rollback are out,
  and so are the race windows of the check-then-act sequences. The model is single-threaded and
  each operation is atomic.
- Seconds and nanoseconds of `LocalTime` are not modelled. Times are whole minutes.
- LeaveRequests.NewLeaveRequest: the reason is a non-null string. `submitLeaveRequest` accepts a
  null reason; the model has no value for it, as the reason is stored and never read.
- Bean validation is left out, except for the non-negative template break. That covers
  `@NotBlank` on names, `@NotNull` times and the NOT NULL break column on entries. As a result,
  manual entries take non-null times and break, and templates take a non-null break.
- Timesheets.CalculateTotals: requires every entry of the list to carry hours. With a null
  `hours`, the source's `BigDecimal::add` reduction would throw. Saved entries always carry
  hours, because the save recomputes them.
- TimesheetService.GenerateTimesheet: requires every shift instance's template to exist, which the
  `template_id` foreign key guarantees. The assignment-to-instance link is resolved the same way
  the queries resolve it.
- TimesheetService.AddManualEntry: the stored timesheet's `entries` is the list held in the
  record, and the model never reloads it from the entry table. In the code, `entries` is a lazy
  `@OneToMany` collection (Timesheet.java:56-57). A timesheet loaded in a later call, such as a
  second `addManualEntry`, reads it from the entry table, so that call's totals do count the
  earlier manual entries. The model's totals never do. Only the single-call statement is
  promised (`TimesheetService.ManualEntryNotInTotals`).
