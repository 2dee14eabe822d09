# Verified model of the booking back end

This project models the services of a multi-tenant booking back end that hold its hard logic, and proves what they
promise. Every `withRlsContext` call is one atomic transaction on in-memory tables: a failure inside it leaves the
tables as they were. Where the services change rows step by step, the model is a class whose methods change the same
fields in the same order; each method is proved equal to a function on values, and the properties are proved about
that function, for all inputs and all runs. Beside them, for every operation, stands what it does in terms of the tables
alone: when it goes through, which rows it changes and how, and that all others stay. Join, leave and promotion of class sessions are modelled a second time,
statement by statement, with any number of requests interleaved and no row lock assumed.

| file | part of the system |
|---|---|
| `Intervals.dfy`, `Availability.dfy` | the availability calculator: interval subtraction and the slot loop |
| `Calendar.dfy`, `Easter.dfy`, `Holidays.dfy` | the Easter computus and the list of Czech holidays |
| `Lockout.dfy` | the account lockout window and the login that consults it |
| `Seats.dfy`, `SeatEffects.dfy`, `SeatRuns.dfy`, `SeatService.dfy` | class sessions, courses and waitlist: operations, what each does to the tables, whole runs, services |
| `SeatProtocol.dfy` | the same seats under interleaving of single statements |
| `Timetable.dfy` | listing, editing and repeating class sessions |
| `Passes.dfy`, `Credit*.dfy`, `Bundle*.dfy`, `Charging.dfy` | the pass ledgers, and one booking charged across them |
| `GoogleSync.dfy` | inbound calendar reconciliation |
| `ResourceLocks.dfy`, `LockEffects.dfy` | resource locks of plain and chained bookings |
| `Loyalty.dfy`, `Ical.dfy` | loyalty points and tiers; the iCalendar feed |
| `Common.dfy` | shared datatypes and facts about division |

## Where the code and its promise differ

Each of these is proved, with the exact condition under which the promise holds or a concrete run on which it fails.

- The Easter function takes any year, but `Date.UTC` reads the years 0 to 99 as 1900 to 1999. Month and day are right
  for every year (`Easter.ComputusIsEaster`); the date is Easter Sunday of the asked year if and only if the year is at
  least 100 (`Easter.EasterExactlyFrom100`).
- The dates of the holiday list are documented as YYYY-MM-DD. Fixed days carry the year unpadded, and movable ones are
  cut to ten characters. Every text is the date it stands for, and the sorted list is in the order of the dates, if and
  only if the year has four digits (`Holidays.TextsAreDatesIff`, `Holidays.TextOrderIff`; `Holidays.OutOfOrder` says
  what comes instead). From 10000 on two days of one month share a text (`Holidays.LongYearTexts`), beyond 275760 there
  is no list (`Holidays.DateRangeIff`). The controller admits 2000 to 2100.
- Slots are documented as aligned to the slot interval. The settings accept every interval from 5 to 60 minutes. The
  emitted slots are exactly the aligned free windows, for all whole-minute requests, if and only if the interval
  divides 60 (`Availability.ExactIffDivides60`). With such an interval a request is exact, whole minutes or not, if and
  only if every free piece that starts inside a minute is too short for a slot
  (`Availability.ExactIffPartialPiecesShort`, with `Availability.PartialMinuteBreaksGrid` as an instance).
- A subtrahend of length zero removes nothing, and still it changes the list of pieces if and only if it falls inside
  one (`Intervals.EmptySubtrahendSplits`).
- A lock is announced until fifteen minutes after the last attempt, but it opens when the tenth-latest attempt leaves
  the window. It holds for all of the announced time if and only if the last ten attempts lie within one millisecond
  (`Lockout.LockHoldsUntilReportedEnd`, `Lockout.LockOpensEarly`).
- The clamp `GREATEST(booked_count - 1, 0)` is a plain decrement when somebody leaves if and only if the session is
  open (`SeatRuns.ClampIdleIffOpen`); the other case is reachable (`SeatRuns.ClampActsOnCalledOffSession`).
- A second sync on the same events leaves the tables alone, but it reports no update if and only if events that share
  an id carry the same content (`GoogleSync.SecondRunIsIdle`).
- Rescheduling a booking sets every one of its locks to the whole new window. The locks keep their layout if and only if
  they were one window as long as the new one (`ResourceLocks.LayoutSurvivesIff`); a chain loses its pauses
  (`ResourceLocks.PauseLostOnReschedule` is a run), and one that returns to a resource can never be rescheduled
  (`ResourceLocks.RescheduleFlattensChain`).
- The services of credits and of bundles say that the pass expiring first is used first. The query sorts by owner before
  expiry: own passes before company passes, companies by id. The promise holds for a visit if and only if, among the
  passes that could be charged, one that expires soonest has the owner that ranks first (`CreditRuns.ExpiresFirstIff`,
  `BundleRuns.ExpiresFirstIff`). That is so when all have one owner (`CreditRuns.OneOwnerExpiresFirst`) and can fail
  otherwise (`CreditRuns.LaterExpiryCharged`, `BundleRuns.LaterExpiryCharged`).
- Bookings of a session cancelled in the portal, or by staff in the list of bookings, do not give their seat back. No
  session is oversold, but the counter is the number of bookings if and only if there was no such cancellation
  (`SeatRuns.CounterIsExactIff`), and a free seat can be refused (`SeatRuns.SeatGivenUpStaysTaken`).
- The portal, and the release of unconfirmed bookings, cancel without releasing locks. A cancelled booking holds locks
  if and only if that happened to a lock holder, and then for good (`ResourceLocks.StrandedIff`,
  `ResourceLocks.CancelledChainBlocks`). A move in the portal leaves the locks at the old time
  (`ResourceLocks.MovedChainLeavesLocks`); nothing else does (`ResourceLocks.LocksStayFit`).
- The points of a referral are read from the settings without a check. A balance cannot fall below zero as long as they are not
  negative (`Loyalty.PointsRun`), and does otherwise (`Loyalty.NegativeReferralOverdraws`).
- The branch of the bundle refund that adds a missing item back is never taken (`BundleRuns.ReAddNeverNeeded`).

## Model

| member | source | states |
|---|---|---|
| `Intervals.SubtractFits` | apps/api/src/availability/availability-calculator.ts:70-87 | a window fits in one remaining piece if and only if it fits in one base interval and clashes with no subtrahend; nothing is assumed of the intervals |
| `Intervals.SubtractIsDifference` | apps/api/src/availability/availability-calculator.ts:70-87 | the union of the result is the union of the base minus the union of the subtrahends, instant by instant |
| `Intervals.CutEffect` | apps/api/src/availability/availability-calculator.ts:75-83 | what one subtrahend leaves of one interval, case by case |
| `Intervals.SubtractNormal` | apps/api/src/availability/availability-calculator.ts:70-87 | from separated bases and proper subtrahends come sorted, non-empty, separated pieces: the maximal gaps |
| `Intervals.NormalUnique` | apps/api/src/availability/availability-calculator.ts:70-87 | a set of instants has only one such list |
| `Intervals.SubtractCanonical` | apps/api/src/availability/availability-calculator.ts:70-87 | the resulting list depends only on the set of instants subtracted, not on order or splitting of the subtrahends |
| `Intervals.SubtractDistributes` | apps/api/src/availability/availability-calculator.ts:70-87 | bases are treated independently of each other: the result is the concatenation of the results per base interval |
| `Intervals.SubtractStarts` | apps/api/src/availability/availability-calculator.ts:70-87 | every piece starts at the start of a base or at the end of a subtrahend, so the grid can only be shifted by one of those |
| `Intervals.SubtractApart` | apps/api/src/availability/availability-calculator.ts:70-87 | bases that do not overlap leave pieces that do not overlap, and bases in order leave pieces in order |
| `Intervals.EmptySubtrahendSplits` | apps/api/src/availability/availability-calculator.ts:76-83 | a zero-length subtrahend removes no instant, and it changes the list if and only if it falls inside a remaining piece |
| `Intervals.SubtractIntervals` | apps/api/src/availability/availability-calculator.ts:70-87 | the two nested loops compute the specified subtraction |
| `Intervals.IsSlotFree` | apps/api/src/availability/availability-calculator.ts:164-175 | true if and only if every occupied range ends before the slot starts or starts after it ends |
| `Availability.SlotExactness` | apps/api/src/availability/availability-calculator.ts:93-158 | on whole-minute input, positive length and an interval dividing 60 the loop emits exactly the aligned windows that fit in one working window and clash with no pause, booking, hold or block |
| `Availability.AnswerIff` | apps/api/src/availability/availability-calculator.ts:93-158 | from the fields of the request alone: on whole minutes and with an interval dividing 60, a slot is in the answer if and only if the day is no holiday and it is a grid window without its buffers that lies inside one row of the working hours and meets no pause, booking, hold or block |
| `Availability.SlotsAscend` | apps/api/src/availability/availability-calculator.ts:122-155 | over working windows in order the slots are strictly ascending, so each is emitted once, on the grid or not |
| `Availability.SlotsInAllShape` | apps/api/src/availability/availability-calculator.ts:145-153 | every emitted slot is the slot of some cursor, so exactness covers all of them |
| `Availability.CursorIsAligned` | apps/api/src/availability/availability-calculator.ts:129-143 | the cursor, rounded up once and advanced by the interval, visits exactly the aligned instants from the start on |
| `Availability.OccupyingNeverCreatesSlots` | apps/api/src/availability/availability-calculator.ts:108-158 | of two requests that differ in occupied ranges only, the one with more ranges, of any kind and in any order, has no further slot |
| `Availability.ExactIffDivides60` | apps/api/src/availability/availability-calculator.ts:129-143 | exactness for all whole-minute requests holds if and only if the slot interval divides 60 |
| `Availability.ExactIffPartialPiecesShort` | apps/api/src/availability/availability-calculator.ts:124-157 | over working windows that do not overlap and an interval dividing 60, a request is exact if and only if it is a holiday or every free piece that starts inside a minute is too short for a slot |
| `Availability.HarmlessPiece` | apps/api/src/availability/availability-calculator.ts:124-157 | a piece that starts on a whole minute or is too short emits exactly the aligned windows that fit in it |
| `Availability.PartialMinuteBreaksGrid` | apps/api/src/availability/availability-calculator.ts:129-143 | an instance: a booking ending half a second into a minute makes the loop emit an unaligned slot |
| `Availability.GenerateSlots` | apps/api/src/availability/availability-calculator.ts:124-157 | the cursor loop over one free interval emits the specified slots and terminates |
| `Availability.GenerateAllSlots` | apps/api/src/availability/availability-calculator.ts:124-157 | the loop over the free intervals emits their slots one after the other |
| `Availability.CalculateAvailableSlots` | apps/api/src/availability/availability-calculator.ts:93-158 | the whole calculator, with its early exits, emits the specified slots: those of the answer read off the request |
| `Calendar.DaysBeforeYearClosed` | apps/api/src/holidays/cz-holidays.ts:41 | the closed count of leap days agrees with the year-by-year calendar |
| `Calendar.DayNumberInjective` | apps/api/src/holidays/cz-holidays.ts:41 | a day number names exactly one valid date |
| `Easter.LunarCorrection` | apps/api/src/holidays/cz-holidays.ts:32-33 | the term (b - f + 1) / 3 equals (8b + 13) / 25 for every century |
| `Easter.CorrectionTerm` | apps/api/src/holidays/cz-holidays.ts:38 | m is 1 if and only if l = 6 and the moon is exceptional: h = 29, or h = 28 and a >= 11; otherwise 0 |
| `Easter.SundayAfterMoon` | apps/api/src/holidays/cz-holidays.ts:27-37 | 22 March + h + l is a Sunday of the proleptic Gregorian calendar |
| `Easter.EasterUnique` | apps/api/src/holidays/cz-holidays.ts:25-42 | a year has only one Easter Sunday in the sense of the rule |
| `Easter.ComputusIsEaster` | apps/api/src/holidays/cz-holidays.ts:25-42 | for every year from 0 on, month and day are those of the first Sunday strictly after the paschal full moon of that year, a valid date from 22 March to 25 April |
| `Easter.EasterExactlyFrom100` | apps/api/src/holidays/cz-holidays.ts:25-42 | for every year: Easter Sunday of that year if and only if the year is at least 100; below, the date carries the year 1900 later |
| `Easter.MoonFromEpact` | apps/api/src/holidays/cz-holidays.ts:27-34 | the full moon of the formula is the one given by the epact of Clavius, with its solar and lunar corrections |
| `Easter.KnownEasters` | apps/api/src/holidays/cz-holidays.ts:25-42 | the earliest and the latest Easter, and both exceptions, as dates |
| `Holidays.GetCzHolidays` | apps/api/src/holidays/cz-holidays.ts:49-71 | for every year: nothing if and only if the year is beyond 275760, where the date arithmetic throws; else the thirteen entries sorted by text, in the meant order if and only if the year has four digits |
| `Holidays.TextOrderIff` | apps/api/src/holidays/cz-holidays.ts:50-70 | sorting the texts puts Good Friday and Easter Monday between New Year and Labour Day if and only if the year is from 1000 to 9999 |
| `Holidays.TextsAreDatesIff` | apps/api/src/holidays/cz-holidays.ts:44-47 | every text is YYYY-MM-DD of its own date if and only if the year is from 1000 to 9999 |
| `Holidays.LongYearTexts` | apps/api/src/holidays/cz-holidays.ts:61-68 | from year 10000 on, where ten characters end after the month, Good Friday and Easter Monday have one text if and only if they share the month |
| `Holidays.OutOfOrder` | apps/api/src/holidays/cz-holidays.ts:50-70 | for every year not of four digits, where the movable days end up instead: all in front, with equal texts kept in place by the stable sort, or all at the end |
| `Holidays.MonthDayLess` | apps/api/src/holidays/cz-holidays.ts:51 | padded months and days compare as text exactly as they do as dates |
| `Holidays.DateRangeIff` | apps/api/src/holidays/cz-holidays.ts:56-67 | Easter is beyond what a Date can hold if and only if the year is beyond 275760 |
| `Holidays.MovableDates` | apps/api/src/holidays/cz-holidays.ts:55-67 | Good Friday is the date two days before Easter Sunday and Easter Monday the one after it, both valid and from 20 March to 26 April |
| `Holidays.SortCounts` | apps/api/src/holidays/cz-holidays.ts:69 | sorting permutes the entries |
| `Holidays.SortSorts` | apps/api/src/holidays/cz-holidays.ts:69 | the sort leaves no entry before one of a lesser text |
| `Holidays.SortedUnique` | apps/api/src/holidays/cz-holidays.ts:69 | the strictly sorted list is the only sorted arrangement of the entries |
| `Holidays.OrderIsStrict` | apps/api/src/holidays/cz-holidays.ts:56-68 | from year 100 on the meant order is strictly ascending by date, so all thirteen days are different |
| `Holidays.FixedTexts` | apps/api/src/holidays/cz-holidays.ts:11-23 | the eleven fixed days of a year of four digits as the texts of the list |
| `Holidays.FourDigitsRead` | apps/api/src/holidays/cz-holidays.ts:51 | the four digits read as the year |
| `Lockout.LockedIff` | apps/api/src/auth/account-lockout.service.ts:73-110 | locked if and only if ten unresolved attempts exist, the tenth-latest lies in the window and the latest is less than fifteen minutes old; the reported end is the latest plus fifteen minutes |
| `Lockout.StepKeepsPace` | apps/api/src/auth/auth.service.ts:182-295 | one login or unlock keeps every account's counted attempts paced |
| `Lockout.RunIsPaced` | apps/api/src/auth/account-lockout.service.ts:8-19 | in every sequential run, for every account, the counted attempts satisfy t[i+10] - t[i] >= 15 minutes |
| `Lockout.FailuresStayCounted` | apps/api/src/auth/account-lockout.service.ts:116-145 | without a success or an unlock, the counted attempts are exactly the wrong-credentials answers |
| `Lockout.QuarterBound` | apps/api/src/auth/account-lockout.service.ts:36-40 | paced attempts: at most ten in any half-open quarter of an hour |
| `Lockout.HourBound` | apps/api/src/auth/account-lockout.service.ts:12-14 | paced attempts: at most forty in any half-open hour |
| `Lockout.GuessingRate` | apps/api/src/auth/account-lockout.service.ts:8-19 | in any sequential run without success or unlock of the account, at most ten wrong guesses a quarter and forty an hour |
| `Lockout.UnlockedFromReportedEnd` | apps/api/src/auth/account-lockout.service.ts:95-110 | without new attempts the account is unlocked at every time from the reported end on |
| `Lockout.LockHoldsUntilReportedEnd` | apps/api/src/auth/account-lockout.service.ts:86-110 | the lock lasts until its reported end if and only if the last ten attempts span at most a millisecond |
| `Lockout.LockOpensEarly` | apps/api/src/auth/account-lockout.service.ts:73-110 | a sequential run of ten denied logins a minute apart: announced as locked until minute 24, open a millisecond after minute 15 |
| `Lockout.StateEffect` | apps/api/src/auth/account-lockout.service.ts:73-110 | from the rows alone: the attempts counted, when that locks, the end a quarter after the latest, and the seconds to it rounded up |
| `Lockout.LoginEffect` | apps/api/src/auth/auth.service.ts:182-295 | a locked account answers with the lock and writes nothing; else accepted credentials are granted and forgive exactly the account's failures, and others are denied and counted |
| `Lockout.AuthService.Login` | apps/api/src/auth/auth.service.ts:182-295 | the lock is consulted before the credentials; a locked attempt records nothing, a failure appends one attempt, a success resolves them |
| `Lockout.AccountLockout.RecordFailure` | apps/api/src/auth/account-lockout.service.ts:116-145 | appends one unresolved attempt |
| `Lockout.AccountLockout.MarkResolved` | apps/api/src/auth/account-lockout.service.ts:162-177 | resolves exactly the account's unresolved attempts and reports how many |
| `GoogleSync.SyncMirrors` | apps/api/src/google-calendar/google-calendar.service.ts:629-757 | after a run the connection maps exactly the eligible event ids, each to a block of its own that carries start, end and title of the last event with that id |
| `GoogleSync.ReconcileMirrors` | apps/api/src/google-calendar/google-calendar.service.ts:629-730 | the loop extends the mirror: old mappings keep their blocks, nothing outside the connection moves |
| `GoogleSync.SyncCounts` | apps/api/src/google-calendar/google-calendar.service.ts:629-757 | created and deleted are the sizes of the two set differences, updated is the number of events that change the content last known of their id, skipped counts own and undated events |
| `GoogleSync.SyncFrame` | apps/api/src/google-calendar/google-calendar.service.ts:629-757 | other connections' mappings and all blocks the connection does not map stay as they were; every new block is mapped by the connection |
| `GoogleSync.SecondRunIsIdle` | apps/api/src/google-calendar/google-calendar.service.ts:629-757 | a second run changes nothing, creates and deletes nothing, and reports no update if and only if events sharing an id carry the same content |
| `GoogleSync.SyncEffect` | apps/api/src/google-calendar/google-calendar.service.ts:629-730 | the last mirrored event with an id gives the block its times and its title of at most 200 characters; a new block is the employee's, an old one keeps block and employee |
| `GoogleSync.MappedEffect` | apps/api/src/google-calendar/google-calendar.service.ts:629-757 | an id is mapped if and only if some dated, not cancelled event of somebody else has it |
| `GoogleSync.SkippedEffect` | apps/api/src/google-calendar/google-calendar.service.ts:629-660 | skipped are the system's own events and those not cancelled that lack a time |
| `GoogleSync.InboundSync.SyncInbound` | apps/api/src/google-calendar/google-calendar.service.ts:629-757 | the loop, its counters and the final deletion compute the specified reconciliation |
| `SeatRuns.SeatsStayAccounted` | apps/api/src/class-sessions/class-sessions.service.ts:4-9 | in every reachable state, cancellations past the counter included, an open session's counter is its non-cancelled bookings plus those cancelled past it and is at most the capacity, so no session is oversold; a session not open counts zero, nobody holds two active seats or one spot twice, and waiting positions follow arrival |
| `SeatRuns.CounterIsExactIff` | apps/api/src/portal/portal-me.service.ts:200-222 | the counter of an open session is ahead of its bookings by exactly the bookings of it cancelled in the portal or by staff, and is their number if and only if there was none |
| `SeatRuns.SeatGivenUpStaysTaken` | apps/api/src/portal/portal-me.service.ts:200-222 | a run after which a customer is turned away as from a full session although one of two places is free |
| `SeatRuns.CancelAloneKeeps` | apps/api/src/bookings/bookings.service.ts:728-763 | a cancellation that does not look at the session keeps the invariant, with one more seat lost |
| `SeatRuns.StepKeeps` | apps/api/src/class-sessions/class-sessions.service.ts:144-2179 | every operation, courses included, keeps that invariant |
| `SeatRuns.JoinKeeps` | apps/api/src/class-sessions/class-sessions.service.ts:1330-1467 | a join keeps it, and a failed join, compensation included, leaves the tables exactly as they were |
| `SeatRuns.EnrollKeeps` | apps/api/src/courses/courses.service.ts:171-280 | an enrolment keeps it: one seat per booked lesson, everything undone on a unique violation |
| `SeatRuns.CancelEnrollmentKeeps` | apps/api/src/courses/courses.service.ts:283-347 | a course cancellation keeps it: one seat back per cancelled booking |
| `SeatRuns.CountCancelled` | apps/api/src/courses/courses.service.ts:321-344 | cancelling the matching bookings lowers each session's count by the number of matches in it |
| `SeatRuns.ReleaseEachCounts` | apps/api/src/courses/courses.service.ts:336-344 | the release loop lowers each counter by its number of occurrences, clamped once |
| `SeatRuns.ClampIdleIffOpen` | apps/api/src/class-sessions/class-sessions.service.ts:1659-1671 | on a leave the clamped decrement is a plain one if and only if the session is open |
| `SeatRuns.ClampIdleOnCourseCancel` | apps/api/src/courses/courses.service.ts:336-344 | on open lessons the clamp never acts when an enrolment is cancelled |
| `SeatRuns.ClampActsOnCalledOffSession` | apps/api/src/class-sessions/class-sessions.service.ts:1785-1871 | a run after which somebody can leave a called-off session, where the clamp acts |
| `SeatRuns.PromotionIsFifo` | apps/api/src/class-sessions/class-sessions.service.ts:2067-2179 | an entry is promoted only when no earlier arrival of the session still waits |
| `SeatRuns.WaitlistIsFifo` | apps/api/src/class-sessions/class-sessions.service.ts:2067-2179 | the same along every run |
| `SeatRuns.LeaveMovesOneSeat` | apps/api/src/class-sessions/class-sessions.service.ts:1626-1709 | a leave with a promotion keeps the counter, one without lowers it by one, and other sessions are untouched |
| `SeatRuns.LeaveSettlesHead` | apps/api/src/class-sessions/class-sessions.service.ts:2072-2176 | after a leave the head of the queue is promoted, or removed with its seat given back when it is a participant; other entries stay |
| `SeatRuns.HeadIsFirst` | apps/api/src/class-sessions/class-sessions.service.ts:2072-2087 | the least position is the earliest arrival among the waiting |
| `SeatRuns.MaxPositionBounds` | apps/api/src/class-sessions/class-sessions.service.ts:1919-1935 | a new position, one above the maximum, is greater than every waiting one |
| `SeatEffects.JoinEffect` | apps/api/src/class-sessions/class-sessions.service.ts:1231-1468 | who may join, the reason against it in the order of the checks, and the one seat and one booking of a join |
| `SeatEffects.CreateEffect` | apps/api/src/class-sessions/class-sessions.service.ts:144-343 | an open empty session of a capacity of at least two, or one on a machine |
| `SeatEffects.LeaveEffect` | apps/api/src/class-sessions/class-sessions.service.ts:1626-1709 | who may leave; with nobody waiting, or in a session not open, exactly that seat and booking are given up |
| `SeatEffects.LeavePromotes` | apps/api/src/class-sessions/class-sessions.service.ts:1693-1696 | with somebody waiting, the one of least position gets the seat and a booking, or, as a participant, is taken off the list |
| `SeatEffects.AttendanceEffect` | apps/api/src/class-sessions/class-sessions.service.ts:844-886 | any booking not cancelled can be marked, and marked present only if nobody else takes part as the same customer or on the same spot |
| `SeatEffects.CapacityEffect` | apps/api/src/class-sessions/class-sessions.service.ts:411-428 | a capacity at least the occupancy and the minimum is set in an open session, and nothing else changes |
| `SeatEffects.CallOffEffect` | apps/api/src/class-sessions/class-sessions.service.ts:1785-1871 | exactly the bookings that take part are cancelled, and the counter is emptied |
| `SeatEffects.CancelAloneEffect` | apps/api/src/portal/portal-me.service.ts:193-222 | which bookings can be cancelled alone, and that only the booking changes |
| `SeatEffects.WaitlistEffect` | apps/api/src/class-sessions/class-sessions.service.ts:1876-1954 | only a full open session queues people, once per e-mail and nobody who takes part, right behind the last |
| `SeatEffects.LeaveWaitlistEffect` | apps/api/src/class-sessions/class-sessions.service.ts:2033-2061 | exactly the waiting entry is removed |
| `SeatEffects.EnrollEffect` | apps/api/src/courses/courses.service.ts:171-280 | who may enrol; exactly the open lessons of the course with room get one booking of the customer and count one more |
| `SeatEffects.CancelEnrollmentEffect` | apps/api/src/courses/courses.service.ts:283-347 | exactly the student's own bookings that take part in lessons of the course are cancelled, and their number is reported |
| `SeatEffects.CancelEnrollmentSeats` | apps/api/src/courses/courses.service.ts:336-344 | each lesson's counter falls by the number of its own cancelled bookings |
| `SeatEffects.AssignEffect` | apps/api/src/courses/courses.service.ts:95-109 | the named sessions get the course and nothing else |
| `SeatService.Tables.Create` | apps/api/src/class-sessions/class-sessions.service.ts:144-343 | appends an open session with no bookings, or refuses a capacity that is too low |
| `SeatService.Tables.TryReserve` | apps/api/src/class-sessions/class-sessions.service.ts:1330-1346 | the conditional update takes a seat if and only if the session is open and below capacity |
| `SeatService.Tables.PerformJoin` | apps/api/src/class-sessions/class-sessions.service.ts:1231-1468 | the statements of a join, compensation included, amount to the specified join |
| `SeatService.Tables.PromoteFromWaitlist` | apps/api/src/class-sessions/class-sessions.service.ts:2067-2179 | the statements of a promotion, including the duplicate head, amount to the specified promotion |
| `SeatService.Tables.LeaveSession` | apps/api/src/class-sessions/class-sessions.service.ts:1626-1709 | cancel, give back, promote, as specified |
| `SeatService.Tables.LeaveSystem` | apps/api/src/class-sessions/class-sessions.service.ts:1716-1781 | the same without an error when there is nothing to leave |
| `SeatService.Tables.CancelOutside` | apps/api/src/portal/portal-me.service.ts:193-222 | cancels the booking alone, or names why not |
| `SeatService.Tables.Attend` | apps/api/src/class-sessions/class-sessions.service.ts:844-886 | sets the attendance of a booking that is not cancelled, unless a unique index forbids it |
| `SeatService.Tables.ChangeCapacity` | apps/api/src/class-sessions/class-sessions.service.ts:411-428 | refuses a capacity below the occupancy or the minimum |
| `SeatService.Tables.CallOff` | apps/api/src/class-sessions/class-sessions.service.ts:1785-1871 | cancels the active bookings and sets the counter to zero |
| `SeatService.Tables.PerformWaitlistJoin` | apps/api/src/class-sessions/class-sessions.service.ts:1876-1954 | queues behind everybody waiting, or refuses a free, closed, joined or queued case |
| `SeatService.Tables.DropFromWaitlist` | apps/api/src/class-sessions/class-sessions.service.ts:2033-2061 | removes exactly one waiting entry |
| `SeatService.Tables.MarkLessons` | apps/api/src/courses/courses.service.ts:95-109 | the named sessions belong to the course and keep their seats, all others are untouched |
| `SeatService.Tables.EnrollInCourse` | apps/api/src/courses/courses.service.ts:171-280 | enrols if and only if allowed and free in each lesson, and books the customer into exactly the open lessons with room, or rolls everything back |
| `SeatService.Tables.CancelCourseEnrollment` | apps/api/src/courses/courses.service.ts:283-347 | cancels exactly the student's own bookings in lessons of the course, reports their number, and gives one seat back for each |
| `SeatProtocol.NeverOversold` | apps/api/src/class-sessions/class-sessions.service.ts:4-9 | for every interleaving the counter of the open session is non-cancelled bookings, plus seats in flight, plus bookings cancelled past it, never above capacity, and no customer holds two seats |
| `SeatProtocol.StepKeeps` | apps/api/src/class-sessions/class-sessions.service.ts:1330-1467 | every single statement of every request keeps that |
| `SeatProtocol.NoSeatLost` | apps/api/src/class-sessions/class-sessions.service.ts:1381-1467 | when all requests have ended the counter is exactly the number of bookings and of the cancellations past it: no request loses a seat |
| `SeatProtocol.ClampIdle` | apps/api/src/class-sessions/class-sessions.service.ts:1659-1671 | a request that still has to give a seat back finds a positive counter |
| `SeatProtocol.NoDeadlock` | apps/api/src/class-sessions/class-sessions.service.ts:1231-1468 | every statement of an unfinished request is enabled and brings it closer to its end |
| `SeatProtocol.JoinedIsTrue` | apps/api/src/class-sessions/class-sessions.service.ts:1381-1467 | requests told that they joined have different booking rows, each made out to the customer it names |
| `SeatProtocol.JoinServesItsCustomer` | apps/api/src/class-sessions/class-sessions.service.ts:1231-1468 | a request that starts as a join of a customer, if told that it joined, has a row of that customer, whatever ran in between |
| `SeatProtocol.JoinAloneIsAtomic` | apps/api/src/class-sessions/class-sessions.service.ts:1231-1468 | run alone, the statements of a join are the atomic join |
| `SeatProtocol.LeaveAloneIsAtomic` | apps/api/src/class-sessions/class-sessions.service.ts:1626-1709 | run alone, the statements of a leave of an open session cancel the row and hand the seat to the head of the queue, counter unchanged, or, without a head or with one who takes part, lower the counter by one |
| `SeatProtocol.LeaveOtherwise` | apps/api/src/class-sessions/class-sessions.service.ts:1637-1671 | a leave of a closed session promotes nobody, and one without a seat changes nothing |
| `SeatProtocol.PromotionAlone` | apps/api/src/class-sessions/class-sessions.service.ts:2088-2176 | run alone, a promotion takes a seat and inserts a row, or leaves everything as it was when the session is full or closed or the person takes part |
| `SeatProtocol.ActionEffects` | apps/api/src/class-sessions/class-sessions.service.ts:411-428 | what attendance, capacity edits, calling off and an aborted join do |
| `SeatProtocol.FirstJoinSucceeds` | apps/api/src/class-sessions/class-sessions.service.ts:1231-1468 | from the start of a session with a place the first join has its row and its seat |
| `Timetable.TimetableStaysSafe` | apps/api/src/class-sessions/class-sessions.service.ts:227-287 | in every reachable state open sessions of one trainer without a machine, of one machine, and, with the switch on, of one branch without a machine have disjoint buffered windows |
| `Timetable.CollisionIff` | apps/api/src/class-sessions/class-sessions.service.ts:481-565 | a session is placed if and only if it is compatible with every other one |
| `Timetable.CreateKeepsSafe` | apps/api/src/class-sessions/class-sessions.service.ts:144-343 | listing a session keeps the timetable safe |
| `Timetable.UpdateKeepsSafe` | apps/api/src/class-sessions/class-sessions.service.ts:358-694 | editing one keeps it safe |
| `Timetable.RecurrenceCounts` | apps/api/src/class-sessions/class-sessions.service.ts:962-1007 | created and skipped add up to the requested starts; created ids are consecutive and older sessions untouched |
| `Timetable.RecurrenceReports` | apps/api/src/class-sessions/class-sessions.service.ts:962-1007 | each start is reported once: as a listed session that starts then, or as skipped with its error |
| `Timetable.ListEffect` | apps/api/src/class-sessions/class-sessions.service.ts:144-343 | when a session is listed, and its times, buffers, capacity and place, from the request |
| `Timetable.ChangeEffect` | apps/api/src/class-sessions/class-sessions.service.ts:358-605 | when an edit goes through, and the edited session, with what is not sent kept |
| `Timetable.HasPlaceIff` | apps/api/src/class-sessions/class-sessions.service.ts:481-565 | no collision is reported if and only if no other session shares time and trainer, machine, or exclusive branch |
| `Timetable.WeekdayEffect` | apps/api/src/class-sessions/class-sessions.service.ts:951 | the weekday numbers run from Monday 1 to Sunday 7 and 1 January 1970 is a Thursday |
| `Timetable.SeriesEffect` | apps/api/src/class-sessions/class-sessions.service.ts:953-1000 | each start is at the time of day of its day, and exactly the created sessions get the series |
| `Timetable.Sessions.List` | apps/api/src/class-sessions/class-sessions.service.ts:144-343 | the checks in their order, then one new session |
| `Timetable.Sessions.Change` | apps/api/src/class-sessions/class-sessions.service.ts:358-605 | the checks in their order, then the edited session |
| `Timetable.Sessions.Occurrences` | apps/api/src/class-sessions/class-sessions.service.ts:946-960 | terminates with exactly the matching weekdays among the first 366 days up to the end, ascending |
| `Timetable.Sessions.ListEach` | apps/api/src/class-sessions/class-sessions.service.ts:962-982 | one listing per start, in order, a failed one skipping that start only |
| `Timetable.Sessions.Recur` | apps/api/src/class-sessions/class-sessions.service.ts:914-1008 | lists those days in order, tags the created ones and reports the rest |
| `Passes.FirstInIsOptimal` | apps/api/src/credit-packs/credit-packs.service.ts:520-593 | scanning the listing finds nothing if and only if no candidate is usable, and else one the query puts before every other usable one |
| `Passes.ExpiryDecidesIffSameOwner` | apps/api/src/credit-packs/credit-packs.service.ts:533-545 | the query sorts two packs by expiry, whatever their expiries, if and only if both are customers' or both belong to one company |
| `Passes.BestExpiresFirstIff` | apps/api/src/credit-packs/credit-packs.service.ts:533-545 | the pass the query puts first expires no later than any other if and only if a soonest-expiring one has an owner no other owner precedes |
| `CreditRuns.CreditsAreConserved` | apps/api/src/credit-packs/credit-packs.service.ts:174-756 | in every reachable state each pack's remaining credits, logged deductions and credits rolled out equal the credits bought; no balance is negative; an active pack has a credit left |
| `CreditRuns.StepKeeps` | apps/api/src/credit-packs/credit-packs.service.ts:174-756 | every operation keeps that |
| `CreditRuns.RollOverTransfers` | apps/api/src/credit-packs/credit-packs.service.ts:240-303 | a rollover closes every source, gives the new pack at most what they held and at most the limit, and touches no other pack |
| `CreditRuns.ChoiceIsOptimal` | apps/api/src/credit-packs/credit-packs.service.ts:511-594 | nothing is charged if and only if no reachable pack qualifies and can afford the cost; the pack charged precedes every other such pack |
| `CreditRuns.OwnPackFirst` | apps/api/src/credit-packs/credit-packs.service.ts:520-545 | an own pack is charged whenever one qualifies, the earliest to expire, never-expiring last |
| `CreditRuns.ExpiresFirstIff` | apps/api/src/credit-packs/credit-packs.service.ts:11-15 | the promise that the pack expiring first is used first holds for a visit if and only if, of the packs that could be charged, a soonest-expiring one has the owner that ranks first: the customer, else the company of least id |
| `CreditRuns.OneOwnerExpiresFirst` | apps/api/src/credit-packs/credit-packs.service.ts:11-15 | when all packs that could be charged are the customer's own or one company's, the one charged expires no later than any of them |
| `CreditRuns.LaterExpiryCharged` | apps/api/src/credit-packs/credit-packs.service.ts:533-545 | a state and its only listing where an own pack that never expires is charged although a company's expires sooner |
| `CreditRuns.DeductFrame` | apps/api/src/credit-packs/credit-packs.service.ts:568-593 | a charge changes one balance by the cost, marks it used up if and only if nothing is left, and logs one row |
| `CreditRuns.RefundUndoesCharge` | apps/api/src/credit-packs/credit-packs.service.ts:601-677 | in any run, if nothing else has touched the charged pack since, the refund restores it as it was before the charge, except that an emptied pack stays used up once expired |
| `CreditRuns.RefundReturnsCharge` | apps/api/src/credit-packs/credit-packs.service.ts:601-677 | a refund gives the charged pack back exactly the credits charged and touches no other, whatever ran since the charge; only a used-up pack in date changes its status |
| `CreditRuns.RefundIsIdempotent` | apps/api/src/credit-packs/credit-packs.service.ts:606-676 | a second refund does nothing, and a refund lifts no suspension |
| `CreditEffects.ChargeEffect` | apps/api/src/credit-packs/credit-packs.service.ts:511-594 | nothing is charged if and only if no reachable active pack in date for the service and branch holds the price; else the first of those, at its own price: that of the service on a per-credit pack, one otherwise |
| `CreditEffects.SaleEffect` | apps/api/src/credit-packs/credit-packs.service.ts:174-303 | the pack sold, from the template, and for a customer the leftover packs closed and credited to it within the policy |
| `CreditEffects.NoSuchTemplate` | apps/api/src/credit-packs/credit-packs.service.ts:174-205 | a template that is not there sells nothing |
| `CreditEffects.AdjustEffect` | apps/api/src/credit-packs/credit-packs.service.ts:407-478 | the balance moves by the asked number and the date by the asked days, or the reason against it |
| `CreditEffects.SuspendEffect` | apps/api/src/passes/passes.service.ts:335-400 | active to suspended and back, and nothing else |
| `CreditEffects.RefundEffect` | apps/api/src/credit-packs/credit-packs.service.ts:601-677 | the first charge of the booking is given back once, and a used-up pack in date is active again |
| `CreditEffects.PenaltyHeadIff` | apps/api/src/credit-packs/credit-packs.service.ts:688-703 | a penalty takes from an own active pack with credits, the earliest to expire |
| `CreditEffects.PenaltyEffect` | apps/api/src/credit-packs/credit-packs.service.ts:705-726 | what is asked for, or all the pack holds |
| `CreditEffects.ExpiryEffect` | apps/api/src/credit-packs/credit-packs.service.ts:741-756 | active and used-up packs past their date expire |
| `CreditService.CreditTables.ApplyRollover` | apps/api/src/credit-packs/credit-packs.service.ts:240-303 | the collecting loop and the two updates compute the specified rollover |
| `CreditService.CreditTables.Sell` | apps/api/src/credit-packs/credit-packs.service.ts:174-232 | sells a pack with the template's credits and rolls over for customers |
| `CreditService.CreditTables.AdjustCredits` | apps/api/src/credit-packs/credit-packs.service.ts:407-478 | changes balance and expiry and logs the opposite amount, or refuses |
| `CreditService.CreditTables.SetStatus` | apps/api/src/passes/passes.service.ts:335-400 | suspends only active and resumes only suspended packs |
| `CreditService.CreditTables.FirstUsable` | apps/api/src/credit-packs/credit-packs.service.ts:548-566 | the candidate loop stops at the first usable pack of the listing, with its cost |
| `CreditService.CreditTables.DeductForBooking` | apps/api/src/credit-packs/credit-packs.service.ts:488-595 | charges that pack and logs the use |
| `CreditService.CreditTables.RefundForBooking` | apps/api/src/credit-packs/credit-packs.service.ts:601-677 | gives the charged credits back once |
| `CreditService.CreditTables.ChargePenalty` | apps/api/src/credit-packs/credit-packs.service.ts:680-730 | takes at most what the pack holds |
| `CreditService.CreditTables.ExpireOverdue` | apps/api/src/credit-packs/credit-packs.service.ts:741-756 | exactly the active and used-up packs past their date become expired, none is left, and balances, other packs and the log stay |
| `BundleRuns.PiecesAreConserved` | apps/api/src/bundle-packs/bundle-packs.service.ts:172-643 | in every reachable state, per pass and service, pieces over all items plus logged deductions equal the snapshot, even when a service occurs twice; no quantity is negative; an active pass has a piece left |
| `BundleRuns.QuantityChange` | apps/api/src/bundle-packs/bundle-packs.service.ts:487-520 | changing one item and logging the opposite keeps the books of every service |
| `BundleRuns.ReAddNeverNeeded` | apps/api/src/bundle-packs/bundle-packs.service.ts:577-590 | in every reachable state the refund finds the item to put the piece back into |
| `BundleRuns.PutBackCounts` | apps/api/src/bundle-packs/bundle-packs.service.ts:577-590 | both branches of putting back raise exactly the one service by the amount |
| `BundleRuns.ChoiceIsOptimal` | apps/api/src/bundle-packs/bundle-packs.service.ts:437-527 | a piece is taken if and only if a reachable bundle in date has one and accepts the branch, from the first in the order of the query |
| `BundleRuns.ExpiresFirstIff` | apps/api/src/bundle-packs/bundle-packs.service.ts:429-436 | the same promise of the bundles holds under the same condition on the state, and so whenever all bundles that could be charged have one owner |
| `BundleRuns.LaterExpiryCharged` | apps/api/src/bundle-packs/bundle-packs.service.ts:478-484 | a state and its only listing where an own bundle that never expires is charged although a company's expires sooner |
| `BundleRuns.RefundIsIdempotent` | apps/api/src/bundle-packs/bundle-packs.service.ts:538-618 | a second refund does nothing, and a refund lifts no suspension |
| `BundleEffects.ChargeEffect` | apps/api/src/bundle-packs/bundle-packs.service.ts:437-527 | nothing is taken if and only if no reachable active bundle in date for the branch has a piece; else one piece of the first stocked item of the first of those |
| `BundleEffects.SaleEffect` | apps/api/src/bundle-packs/bundle-packs.service.ts:172-228 | the bundle sold, from the template |
| `BundleEffects.AdjustEffect` | apps/api/src/bundle-packs/bundle-packs.service.ts:330-426 | the first item of the service moves by the asked number, never below zero, and the date by the asked days |
| `BundleEffects.ExtendEffect` | apps/api/src/bundle-packs/bundle-packs.service.ts:384-422 | without a quantity only the date moves |
| `BundleEffects.AdjustUnknownService` | apps/api/src/bundle-packs/bundle-packs.service.ts:359-370 | a service not in the bundle is refused |
| `BundleEffects.SuspendEffect` | apps/api/src/passes/passes.service.ts:335-400 | active to suspended and back, and nothing else |
| `BundleEffects.RefundEffect` | apps/api/src/bundle-packs/bundle-packs.service.ts:533-619 | the pieces of the first charge go back into the first item of their service, once, and a used-up bundle is active again |
| `BundleEffects.ExpiryEffect` | apps/api/src/bundle-packs/bundle-packs.service.ts:628-643 | active and used-up bundles past their date expire |
| `BundleEffects.EmptyIff` | apps/api/src/bundle-packs/bundle-packs.service.ts:65-67 | the total is zero if and only if every item is |
| `BundlePacks.FindItem` | apps/api/src/bundle-packs/bundle-packs.service.ts:359-370 | an item of the service that satisfies the search, or the guarantee that there is none |
| `BundleService.BundleTables.Sell` | apps/api/src/bundle-packs/bundle-packs.service.ts:172-228 | sells a pass with a copy of the template's items as snapshot |
| `BundleService.BundleTables.Adjust` | apps/api/src/bundle-packs/bundle-packs.service.ts:330-426 | changes one quantity and the expiry, or refuses; used up when nothing is left |
| `BundleService.BundleTables.FirstUsable` | apps/api/src/bundle-packs/bundle-packs.service.ts:470-487 | the candidate loop stops at the first usable bundle of the listing |
| `BundleService.BundleTables.DeductForBooking` | apps/api/src/bundle-packs/bundle-packs.service.ts:437-527 | takes one piece of the service and logs it |
| `BundleService.BundleTables.RefundForBooking` | apps/api/src/bundle-packs/bundle-packs.service.ts:533-619 | puts the piece back once |
| `BundleService.BundleTables.ExpireOverdue` | apps/api/src/bundle-packs/bundle-packs.service.ts:628-643 | exactly the active and used-up passes past their date become expired, none is left, and items, other passes and the log stay |
| `Charging.AtMostOneCharge` | apps/api/src/class-sessions/class-sessions.service.ts:86-121 | in every run with one deduct call per booking, at most one of the three ledgers holds a consumed row of a booking, none before it is charged, and its rows are nothing, a charge, or a charge and its refund |
| `Charging.StepAppends` | apps/api/src/class-sessions/class-sessions.service.ts:86-140 | every operation, on one ledger or all, appends at most one row to each log, refunds only open charges in full, and a charge touches at most one log |
| `Charging.RefundCancelsCharge` | apps/api/src/class-sessions/class-sessions.service.ts:124-140 | at any point of every such run, once a booking's cancellation has gone through, its rows sum to zero in every ledger, further refunds change nothing, and a pass suspended meanwhile stays suspended |
| `Charging.RefundCanBeRepeated` | apps/api/src/class-sessions/class-sessions.service.ts:124-140 | a refund interrupted in any ledgers and then repeated ends in the state of the whole refund |
| `Charging.ChargeOrder` | apps/api/src/class-sessions/class-sessions.service.ts:86-121 | a time pass first, else a bundle that can give a piece, else a credit pack that can pay; a failing ledger ends the attempt |
| `Charging.RefundEachAlone` | apps/api/src/class-sessions/class-sessions.service.ts:124-140 | each ledger is refunded unless its own transaction fails |
| `Charging.TimeRefundEffect` | apps/api/src/class-sessions/class-sessions.service.ts:124-140 | the first time-pass charge of the booking is given back once |
| `ResourceLocks.StepIs` | apps/api/src/bookings/bookings.service.ts:811-912 | the events of a run are the operations with their own arguments |
| `ResourceLocks.LocksStayDisjoint` | apps/api/src/bookings/bookings.service.ts:1067-1124 | in every reachable state, portal and system cancellations and moves included, active locks of one resource are pairwise disjoint, each belongs to a booking, and no employee has two bookings at one time |
| `ResourceLocks.StepKeepsLocks` | apps/api/src/bookings/bookings.service.ts:500-1008 | plain and chained creates, reschedules, cancels, status changes and the writers that ignore locks each keep that |
| `ResourceLocks.StrandedIff` | apps/api/src/portal/portal-me.service.ts:200-222 | a cancelled booking holds a lock if and only if some event cancelled a lock holder in the portal or after a declined confirmation; no later event releases it |
| `ResourceLocks.CancelledChainBlocks` | apps/api/src/smart/smart.service.ts:402-424 | a run in which a cancelled chain goes on blocking its resource |
| `ResourceLocks.LocksStayFit` | apps/api/src/bookings/bookings.service.ts:886-896 | while no lock holder is moved in the portal, every held lock lies inside the window of its booking |
| `ResourceLocks.MovedChainLeavesLocks` | apps/api/src/portal/portal-me.service.ts:385-407 | a run in which a move in the portal leaves the locks at the old time |
| `ResourceLocks.AcquireIff` | apps/api/src/bookings/bookings.service.ts:1067-1124 | the check-and-insert loop takes the wanted locks if and only if each resource is live and none clashes with a held lock or with another wanted one, and then takes exactly those |
| `ResourceLocks.ChainedCreateIff` | apps/api/src/chained-bookings/chained-bookings.service.ts:122-173 | a chained create succeeds under exactly that condition, locks exactly the segments, and changes nothing otherwise |
| `ResourceLocks.SegmentsInsideParent` | apps/api/src/chained-bookings/chained-bookings.service.ts:51-59 | every segment lies in the parent, whose ends are ends of segments |
| `ResourceLocks.PauseStaysBookable` | apps/api/src/chained-bookings/chained-bookings.service.ts:51-59 | a window no segment and no older lock occupies can be booked after the chained create, with any employee who is free |
| `ResourceLocks.RescheduleIff` | apps/api/src/bookings/bookings.service.ts:811-912 | a reschedule goes through if and only if no other booking of the employee is in the way, the booking's locks are on different resources and other locks are clear of the new window |
| `ResourceLocks.RescheduleFlattensChain` | apps/api/src/bookings/bookings.service.ts:886-896 | every lock of the booking becomes the whole new window; a chain returning to a resource cannot be rescheduled |
| `ResourceLocks.LayoutSurvivesIff` | apps/api/src/bookings/bookings.service.ts:886-896 | a reschedule moves the booking's locks by one common amount if and only if they were one window as long as the new one |
| `ResourceLocks.PauseLostOnReschedule` | apps/api/src/bookings/bookings.service.ts:886-896 | a run in which a pause between two segments can be booked, and the same pause a day later cannot after the chain is rescheduled by a day |
| `LockEffects.PlainCreateIff` | apps/api/src/bookings/bookings.service.ts:1067-1124 | a plain create goes through if and only if the employee has time and each resource is live and unlocked in the window; it locks each distinct resource once for that window, and nothing else |
| `LockEffects.ChainedCreateExactly` | apps/api/src/chained-bookings/chained-bookings.service.ts:48-188 | a chained create goes through if and only if each segment's resource is live and unlocked in its window and no two segments meet on one; it locks exactly those |
| `LockEffects.RescheduleEffect` | apps/api/src/bookings/bookings.service.ts:811-912 | what a reschedule sets, on the booking and on its held locks, and what it refuses |
| `LockEffects.CancelEffect` | apps/api/src/bookings/bookings.service.ts:711-767 | the booking is cancelled and exactly its locks are released |
| `LockEffects.ChangeStatusEffect` | apps/api/src/bookings/bookings.service.ts:942-1008 | any booking not cancelled can be marked the other way, completed only if its employee has the time |
| `LockEffects.CancelAloneEffect` | apps/api/src/smart/smart.service.ts:402-424 | which bookings can be cancelled past their locks |
| `LockEffects.MoveAloneEffect` | apps/api/src/portal/portal-me.service.ts:318-435 | when a move in the portal goes through, and that only the booking changes |
| `ResourceLocks.BookingTables.AttachResources` | apps/api/src/bookings/bookings.service.ts:1067-1124 | deduplicates, checks and inserts as specified, and names the failing cause |
| `ResourceLocks.BookingTables.CreatePlainBooking` | apps/api/src/bookings/bookings.service.ts:500-646 | booking and locks together, or nothing; refused when the employee is taken |
| `ResourceLocks.BookingTables.CreateChainedBooking` | apps/api/src/chained-bookings/chained-bookings.service.ts:48-188 | parent and segment locks together, or nothing |
| `ResourceLocks.BookingTables.RescheduleBooking` | apps/api/src/bookings/bookings.service.ts:811-912 | moves the booking, its employee and its active locks, or nothing |
| `ResourceLocks.BookingTables.MarkStatus` | apps/api/src/bookings/bookings.service.ts:942-1008 | marks a booking completed or as a no-show; a no-show whose time the employee has given away cannot be completed |
| `ResourceLocks.BookingTables.CancelBooking` | apps/api/src/bookings/bookings.service.ts:711-767 | cancels the booking and releases its locks |
| `ResourceLocks.BookingTables.CancelOutside` | apps/api/src/portal/portal-me.service.ts:193-222 | cancels the booking and leaves its locks, or names why not |
| `ResourceLocks.BookingTables.MoveInPortal` | apps/api/src/portal/portal-me.service.ts:318-435 | moves the booking if its employee is free, and leaves its locks |
| `Loyalty.PointsRun` | apps/api/src/loyalty/loyalty.service.ts:25-189 | along every run, referrals that give no negative points included, the balance stays between zero and the points ever earned, every reward handed out is paid for, and each booking earns at most once |
| `Loyalty.NegativeReferralOverdraws` | apps/api/src/referrals/referrals.service.ts:123-169 | a negative number of referral points, read from the settings without a check, takes a customer below zero |
| `Loyalty.StepKeeps` | apps/api/src/loyalty/loyalty.service.ts:25-167 | every operation keeps that, and lifetime earned never falls |
| `Loyalty.StepKeepsRewards` | apps/api/src/loyalty/loyalty.service.ts:304-368 | only a redeemed reward adds a redemption, with the entry that pays for it |
| `Loyalty.EarnedNeverFalls` | apps/api/src/loyalty/loyalty.service.ts:172-189 | lifetime earned never falls between two points of a run |
| `Loyalty.TierNeverFalls` | apps/api/src/loyalty/loyalty.service.ts:228-251 | with fixed tiers the reached threshold never falls along a run |
| `Loyalty.CustomerTier` | apps/api/src/loyalty/loyalty.service.ts:228-251 | the highest reached and the lowest unreached tier of the sorted list, and the points to the latter |
| `Loyalty.AwardEffect` | apps/api/src/loyalty/loyalty.service.ts:25-61 | a booking earns the points of the setting once, while the programme is on and gives any |
| `Loyalty.RedeemEffect` | apps/api/src/loyalty/loyalty.service.ts:94-132 | a positive number of points the customer has is taken |
| `Loyalty.RewardEffect` | apps/api/src/loyalty/loyalty.service.ts:304-368 | a reward goes for its price to who has it |
| `Loyalty.CorrectionEffect` | apps/api/src/loyalty/loyalty.service.ts:134-167 | any correction that leaves no debt |
| `Loyalty.ReferralEffect` | apps/api/src/referrals/referrals.service.ts:154-169 | the points of the referrer and of a referee who is a customer |
| `Loyalty.SumsOfOne` | apps/api/src/loyalty/loyalty.service.ts:63-74 | an entry counts for its own customer only, and as earned only if positive |
| `Loyalty.Log.AwardForBooking` | apps/api/src/loyalty/loyalty.service.ts:25-61 | awards once per booking |
| `Loyalty.Log.AwardReferral` | apps/api/src/referrals/referrals.service.ts:154-169 | appends the points of the referrer, and of the referee if that is a customer |
| `Loyalty.Log.TakePoints` | apps/api/src/loyalty/loyalty.service.ts:94-132 | redeems at most the balance |
| `Loyalty.Log.Correct` | apps/api/src/loyalty/loyalty.service.ts:134-167 | corrects, never below zero |
| `Loyalty.Log.TakeReward` | apps/api/src/loyalty/loyalty.service.ts:304-368 | redeems the price of an active reward and writes its redemption with the code, or changes nothing |
| `Ical.EscIsOnePass` | apps/api/src/ical/ical.service.ts:197-199 | the four successive replacements equal one pass of a character map |
| `Ical.TextRoundTrip` | apps/api/src/ical/ical.service.ts:197-199 | unescaping per section 3.3.11 of RFC 5545 restores every string |
| `Ical.EscInjective` | apps/api/src/ical/ical.service.ts:197-199 | different texts stay different |
| `Ical.EscHasNoLineFeed` | apps/api/src/ical/ical.service.ts:197-199 | an escaped text holds no line feed |
| `Ical.SplitJoin` | apps/api/src/ical/ical.service.ts:186-187 | splitting on CRLF undoes joining for lines without line feeds |
| `Ical.FeedSplitsIntoLines` | apps/api/src/ical/ical.service.ts:141-187 | splitting the feed gives back exactly the pushed lines, whatever the names, codes and links hold |
| `Ical.EventLines` | apps/api/src/ical/ical.service.ts:160-184 | the lines of a booking in order, with its state, its code and its link |
| `Ical.FeedFrame` | apps/api/src/ical/ical.service.ts:145-187 | the header named after the first eight characters of the employee, the bookings, the end |
| `Ical.MapEffect` | apps/api/src/ical/ical.service.ts:197-199 | what the character map does to each character |
| `Ical.UnescapeReads` | apps/api/src/ical/ical.service.ts:197-199 | what a reader by section 3.3.11 of RFC 5545 makes of each escape |
| `Ical.SplitOnlyAtCrlf` | apps/api/src/ical/ical.service.ts:186-187 | a text without CRLF is one line |
| `Ical.BuildIcs` | apps/api/src/ical/ical.service.ts:141-187 | the pushing loop builds the specified lines, joined by CRLF |

## Left out

- NestJS wiring, controllers, role checks, row-level security, SQL text, e-mail and SMS, OAuth, HTTP, user interface.
- `toUtc` and the offset lookup: they depend on the host's time zone data; the model takes UTC instants.
- Holidays.GetCzHolidays: `localeCompare` is a comparison character by character, with hyphen and plus before the
  digits; the texts hold no other characters. Names are given in English. The sort is a stable insertion sort.
- SeatProtocol.NeverOversold: `cancelSession`, capacity edits and attendance are atomic steps there; waitlist rows are
  not part of that model, the head of the queue is whatever the promotion reads. Of failing transactions only a join's
  is a step. A leave or promotion that fails is rolled back whole, with the session row locked from its first change of
  the counter on, so that it leaves nothing others could see; without that lock no such rollback is modelled.
- SeatRuns.SeatsStayAccounted: marking a session's booking in the list of bookings is the modelled attendance marking;
  rescheduling one there or in the portal moves the booking only and touches no seat.
- Isolation of transactions beyond that: statements are interleaved as if every write were visible at once.
- SeatService.Tables.ChangeCapacity: the capacity part of an edit only; the timetable part is `Timetable.Sessions.Change`.
  Moving the participants' bookings along with the session and reporting their conflicts is not modelled.
- Age conditions, prerequisites and the customer row found or created for an e-mail are parameters of a join.
- Timetable.Sessions.List: the branch resolved for a request, and whether its machine exists, are parameters.
- Timetable.TimetableStaysSafe: seats are not modelled there; occupancy and closing a session are free steps.
- `cancelRecurrence`: a loop of the modelled cancellation.
- Charging.AtMostOneCharge: of the time-pass ledger only the use log is modelled, and which time pass is chosen is a
  parameter. Penalty rows of a booking are not part of the charge and refund sum. One deduct call per booking is what
  the services make; a second one could charge a second time.
- CreditService.CreditTables.DeductForBooking: the answer of the candidate query is a parameter constrained to be a
  sorted list of exactly the candidates, ties in any order; the same for bundles.
- Passes.FindUse: a query with LIMIT 1 and no order is taken to return the first matching row.
- CreditRuns.CreditsAreConserved: template totals and costs are at least 1, as the template validation demands.
- `resolveRollover`: the policy it yields is a parameter. The corporate `allocate` is `Sell` with a company as owner.
- Dynamic pricing, make-up credits and lookups of company membership: parameters or outside.
- GoogleSync.SyncMirrors: the content hash is taken as injective, and blocks made by the sync are not edited by hand.
- ResourceLocks.BookingTables.CreatePlainBooking: service, branch and price lookups are outside; the windows are given.
  Which resources are live may change at any time. `confirmFromHold` and the series insert bookings with no locks in the
  same way, and a cancelled series cancels them without looking for locks. Slot holds are not modelled.
- ResourceLocks.RescheduleIff: bookings of a class session are not part of that model. They are exempt from the
  constraint on employees, and rescheduling one does not touch its session or seat counter. Windows are not empty.
- Lockout.RunIsPaced: sequential runs only; two attempts checked at the same time may both be recorded.
- The sessions and tokens a successful login creates.
- Ical.BuildIcs: instants and identifiers are taken as formatted text; lines are not folded, as in the code.
- Loyalty.Log.AwardReferral: the checks of the code, of self-referral and of repeated use, and the redemption row.
- Catalogue operations of tiers, rewards, templates and courses; notification e-mails and their deduplication.
