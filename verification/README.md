# Piano-teacher lesson scheduling, modelled in Dafny

This project models the lesson-scheduling engine of the piano-teacher
management system, along with the small validators and classifiers around it.

- **Suggestion pipeline.** `ScheduleService.getSchedulingSuggestions` checks
  the request and generates hour-aligned weekday candidates between 08:00 and
  20:00. It drops candidates that overlap the student's bookings in the
  window. It then scores each survivor by time of day and by how often the
  student's bookings fall on that weekday and hour, ranks by confidence with a
  stable sort, and keeps twenty.
- **Booking store.** `createSchedule`, `updateSchedule`, `rescheduleSchedule`
  and `deleteSchedule` work over a store of rows. The invariant is that no two
  lessons of the same student overlap, and every operation preserves it.
- **Repository queries.** The JPQL `WHERE` clauses of `ScheduleRepository` are
  filters over a sequence of rows.
- **Entities.** The `Schedule` entity covers validation, duration, status,
  overlap and id equality. `Student` covers validation, including the email
  regular expression, and pricing presence. `Pricing` covers validation and
  lesson cost. `ProgressReport` covers validation, grade, level and average.
  `LessonContent` covers validation, completion and difficulty.
- **Front end.** `main.js` contributes the TTL response cache and the
  translation lookup of `LanguageManager`.

Conventions:

- A `LocalDateTime` is an integer number of minutes since an epoch Monday
  00:00. The day is `t / 1440`, the weekday is `day % 7` (0 is Monday), and the
  hour is `(t % 1440) / 60`.
- Confidence is kept in integer tenths (0.5 is 5).
- Money is kept in integer cents.
- Nullable Java fields are `Option`s.
- The clock (`LocalDateTime.now()`, `Date.now()`) is a `now` parameter.
- A failed store operation returns the store it was given. This models the
  rollback of the `@Transactional` service.

Modules, in dependency order:

- `Wrappers`: `Option`, `Result` and `Outcome`.
- `JavaStrings`: `String.trim` and blankness.
- `TimeModel`: minutes, days, weekdays and the half-open overlap.
- `PricingEntity`, `StudentEntity`, `ScheduleEntity`, `ProgressReportEntity`
  and `LessonContentEntity`: the entities.
- `ScheduleRepository`: the queries.
- `SlotGeneration`, `PatternScoring` and `Ranking`: the stages of the
  suggestion pipeline.
- `SchedulingSuggestions`: the whole pipeline.
- `BookingStore`: the store operations.
- `ResponseCache` and `LanguageManager`: the front end.

## Model

| member | source | states |
|---|---|---|
| JavaStrings.Trim | backend/src/main/java/com/pianoteacher/model/Schedule.java:109 | the result is no longer than the input and, unless empty, neither starts nor ends with a character ≤ U+0020 |
| JavaStrings.TrimIsSlice | backend/src/main/java/com/pianoteacher/model/Schedule.java:109 | the trimmed string is a contiguous slice of the input, and every character cut off either end is ≤ U+0020 |
| JavaStrings.BlankIffAllTrimmable | backend/src/main/java/com/pianoteacher/model/Schedule.java:109 | `trim().isEmpty()` holds exactly when every character is ≤ U+0020 |
| TimeModel.AtMinuteOfDay | backend/src/main/java/com/pianoteacher/service/ScheduleService.java:268 | `with(LocalTime)` keeps the date and sets the time of day |
| TimeModel.DayMinute | backend/src/main/java/com/pianoteacher/service/ScheduleService.java:268-305 | a day number and a minute of the day determine a time, and can be read back from it |
| TimeModel.OverlapFacts | backend/src/main/java/com/pianoteacher/service/ScheduleService.java:311-313 | the overlap test is symmetric, lessons that meet end to start do not overlap, and a non-empty lesson overlaps itself |
| PricingEntity.DefaultPricing | backend/src/main/java/com/pianoteacher/model/Pricing.java:30-33 | the default is a 60-minute lesson, "Per lesson", with no rate |
| PricingEntity.Validate | backend/src/main/java/com/pianoteacher/model/Pricing.java:67-74 | a missing or non-positive rate fails first, then a missing or non-positive duration, and a pricing passes only when both are positive |
| PricingEntity.CalculateLessonCost | backend/src/main/java/com/pianoteacher/model/Pricing.java:76-81 | cost fails exactly when validation fails; otherwise the cost in cents is within half a cent of rate × minutes / 60, with ties rounded up |
| PricingEntity.OneHourCostsTheRate | backend/src/main/java/com/pianoteacher/model/Pricing.java:79-80 | a 60-minute lesson costs exactly the hourly rate |
| PricingEntity.CostMonotoneInDuration | backend/src/main/java/com/pianoteacher/model/Pricing.java:79-80 | for a fixed rate, a longer lesson never costs less |
| PricingEntity.HalfCentTieRoundsUp | backend/src/main/java/com/pianoteacher/model/Pricing.java:80 | 12.34 an hour for 45 minutes is exactly 9.255, which rounds up to 9.26 |
| StudentEntity.IsValidEmail | backend/src/main/java/com/pianoteacher/model/Student.java:130-134 | the scan accepts exactly the strings with a non-empty `[A-Za-z0-9+_.-]` prefix, then '@', then at least one character, none of them a line terminator |
| StudentEntity.EmailExamples | backend/src/main/java/com/pianoteacher/model/Student.java:130-134 | "invalid-email", "@c" and "a@" are rejected, and "a.b@c" is accepted |
| StudentEntity.Validate | backend/src/main/java/com/pianoteacher/model/Student.java:118-128 | a missing or blank name fails first, then a missing age or one outside 5..100; a student passes exactly when, in addition, the email is missing, blank or well formed |
| StudentEntity.ShortNameAccepted | backend/src/main/java/com/pianoteacher/model/Student.java:19-22 | a one-letter name passes validation, because the 2..100 length bound is only an annotation |
| StudentEntity.AgeBoundaries | backend/src/main/java/com/pianoteacher/model/Student.java:122-124 | ages 5 and 100 pass; -1 and 101 fail |
| StudentEntity.HasValidPricing | backend/src/main/java/com/pianoteacher/model/Student.java:136-138 | true exactly when a pricing with a positive rate is present |
| StudentEntity.StudentEquals | backend/src/main/java/com/pianoteacher/model/Student.java:155-174 | the same object is always equal; distinct objects are equal exactly when both have ids and the ids agree |
| ScheduleEntity.Validate | backend/src/main/java/com/pianoteacher/model/Schedule.java:96-112 | the checks run in the order student, start, end, end after start, location; each error is reported exactly when the earlier checks pass and its own fails, and a schedule passes exactly when it is well formed |
| ScheduleEntity.GetDuration | backend/src/main/java/com/pianoteacher/model/Schedule.java:114-116 | start plus duration is the end, and a valid lesson has positive duration |
| ScheduleEntity.GetDurationInHours | backend/src/main/java/com/pianoteacher/model/Schedule.java:118-120 | sixty times the hours is the duration in minutes |
| ScheduleEntity.GetStatus | backend/src/main/java/com/pianoteacher/model/Schedule.java:122-132 | SCHEDULED exactly before the start; IN_PROGRESS exactly from the start to the end inclusive; COMPLETED exactly after both; the end need not be set while the lesson has not started |
| ScheduleEntity.OpenEndedLessonScheduled | backend/src/main/java/com/pianoteacher/model/Schedule.java:125-126 | a lesson without an end is SCHEDULED before its start |
| ScheduleEntity.IsOverlapping | backend/src/main/java/com/pianoteacher/model/Schedule.java:134-140 | false for no other lesson or another student's, where one shared student object counts as the same student even without an id; otherwise exactly the half-open overlap, read start against end first so a missing time beyond a failed first comparison is never needed |
| ScheduleEntity.OpenEndedAfterDoesNotOverlap | backend/src/main/java/com/pianoteacher/model/Schedule.java:139 | a lesson of the same student with no end, starting after the other lesson ends, does not overlap it |
| ScheduleEntity.UnsavedStudentOverlap | backend/src/main/java/com/pianoteacher/model/Schedule.java:134-140 | two lessons sharing one unsaved student object are compared by time, while distinct unsaved student objects never make lessons overlap |
| ScheduleEntity.IsOverlappingSymmetric | backend/src/main/java/com/pianoteacher/model/Schedule.java:134-140 | either lesson may ask and the answer is the same |
| ScheduleEntity.BackToBackDoNotOverlap | backend/src/main/java/com/pianoteacher/model/Schedule.java:139 | lessons that meet end to start do not overlap |
| ScheduleEntity.EntityEquals | backend/src/main/java/com/pianoteacher/model/Schedule.java:156-175 | an object always equals itself; distinct objects are equal exactly when both have ids and the ids agree; without an id they are never equal |
| ScheduleEntity.EqualityIsById | backend/src/main/java/com/pianoteacher/model/Schedule.java:156-175 | equality ignores every field except the id, and is symmetric |
| ScheduleRepository.Where | backend/src/main/java/com/pianoteacher/repository/ScheduleRepository.java:21-22 | a filter keeps exactly the rows satisfying its clause, and never more rows than it was given |
| ScheduleRepository.FindByStudentAndDateRange | backend/src/main/java/com/pianoteacher/repository/ScheduleRepository.java:26-29 | exactly the student's rows whose start lies in the inclusive range |
| ScheduleRepository.FindUpcomingSchedules | backend/src/main/java/com/pianoteacher/repository/ScheduleRepository.java:36-37 | exactly the rows starting after `now` |
| ScheduleRepository.FindOngoingSchedules | backend/src/main/java/com/pianoteacher/repository/ScheduleRepository.java:39-40 | exactly the rows with start ≤ now ≤ end |
| ScheduleRepository.FindCompletedSchedules | backend/src/main/java/com/pianoteacher/repository/ScheduleRepository.java:42-43 | exactly the rows ending before `now` |
| ScheduleRepository.FindOverlappingSchedules | backend/src/main/java/com/pianoteacher/repository/ScheduleRepository.java:46-50 | exactly the student's rows that overlap `[start, end)` |
| ScheduleRepository.IsStudentAvailable | backend/src/main/java/com/pianoteacher/repository/ScheduleRepository.java:72-79 | true exactly when some row of the student meets the three-case clause |
| ScheduleRepository.FindSchedulesInNextDays | backend/src/main/java/com/pianoteacher/repository/ScheduleRepository.java:61-63 | exactly the rows starting in `[now, futureDate]` |
| ScheduleRepository.FindStudentSchedulesInNextDays | backend/src/main/java/com/pianoteacher/repository/ScheduleRepository.java:66-69 | exactly the student's rows starting in `[now, futureDate]` |
| ScheduleRepository.AvailabilityClauseIsOverlap | backend/src/main/java/com/pianoteacher/repository/ScheduleRepository.java:74-76 | for a non-empty lesson and window, the three-case clause is exactly the half-open overlap |
| ScheduleRepository.AvailabilityDiffersOnReversedWindow | backend/src/main/java/com/pianoteacher/repository/ScheduleRepository.java:74-76 | with a reversed window the clause fires without an overlap |
| ScheduleRepository.AvailabilityDiffersOnEmptyLesson | backend/src/main/java/com/pianoteacher/repository/ScheduleRepository.java:74-76 | with an empty lesson the clause fires without an overlap |
| ScheduleRepository.IsStudentAvailableMeansConflict | backend/src/main/java/com/pianoteacher/repository/ScheduleRepository.java:72-79 | over well-formed rows, `isStudentAvailable` is true exactly when the overlap query finds a row, that is, when the student is busy |
| ScheduleRepository.WhereSplitsCount | backend/src/main/java/com/pianoteacher/repository/ScheduleRepository.java:36-43 | three clauses that classify every row exactly once split the row count |
| ScheduleRepository.StatusQueriesPartition | backend/src/main/java/com/pianoteacher/repository/ScheduleRepository.java:36-43 | upcoming, ongoing and completed split the rows with no overlap and no gap, and each matches the status `getStatus` reports |
| ScheduleRepository.StudentNextDaysNarrowsNextDays | backend/src/main/java/com/pianoteacher/repository/ScheduleRepository.java:61-69 | the per-student window query returns exactly the window query's rows that belong to the student |
| ScheduleRepository.WhereAppend | backend/src/main/java/com/pianoteacher/repository/ScheduleRepository.java:61-69 | filtering distributes over concatenation |
| ScheduleRepository.DateRangeIgnoresRunningLesson | backend/src/main/java/com/pianoteacher/repository/ScheduleRepository.java:26-29 | a lesson that started before the range and is still running is not returned, although it overlaps the range |
| ScheduleRepository.NextDaysBoundsInclusive | backend/src/main/java/com/pianoteacher/repository/ScheduleRepository.java:61-63 | lessons starting exactly at either bound are returned |
| SlotGeneration.HasConflict | backend/src/main/java/com/pianoteacher/service/ScheduleService.java:280-286 | a candidate conflicts exactly when it overlaps some busy interval |
| SlotGeneration.DaySlots | backend/src/main/java/com/pianoteacher/service/ScheduleService.java:275-301 | one day's slots are conflict-free, in increasing order, an hour apart from 08:00, and end by 20:00 |
| SlotGeneration.DaySlotsComplete | backend/src/main/java/com/pianoteacher/service/ScheduleService.java:275-301 | every conflict-free hour-aligned start of the day that ends by 20:00 is produced |
| SlotGeneration.DayCandidates | backend/src/main/java/com/pianoteacher/service/ScheduleService.java:272-302 | a Saturday or Sunday yields nothing; a weekday yields its slots, all on that date |
| SlotGeneration.DaysFrom | backend/src/main/java/com/pianoteacher/service/ScheduleService.java:270-306 | the day loop emits on-grid, conflict-free candidates in strictly increasing order |
| SlotGeneration.DaysFromComplete | backend/src/main/java/com/pianoteacher/service/ScheduleService.java:270-306 | every on-grid, conflict-free candidate of a day whose 08:00 precedes the end date is emitted |
| SlotGeneration.TodayComplete | backend/src/main/java/com/pianoteacher/service/ScheduleService.java:275-301 | every on-grid, conflict-free start on the current day is among that day's candidates |
| SlotGeneration.Generate | backend/src/main/java/com/pianoteacher/service/ScheduleService.java:261-309 | candidates have the requested length, lie on the grid from the start date's 08:00, avoid every busy interval, and are in chronological order |
| SlotGeneration.GenerateExactly | backend/src/main/java/com/pianoteacher/service/ScheduleService.java:261-309 | an interval is a candidate exactly when it has the requested length, lies on the grid and conflicts with nothing |
| PatternScoring.Frequency | backend/src/main/java/com/pianoteacher/service/ScheduleService.java:320-326 | a weekday or hour count is positive exactly when some window booking has that weekday or hour |
| PatternScoring.FrequencyAppend | backend/src/main/java/com/pianoteacher/service/ScheduleService.java:320-326 | counting a longer history adds the counts of its parts |
| PatternScoring.Confidence | backend/src/main/java/com/pianoteacher/service/ScheduleService.java:334-363 | confidence is the time-of-day base (0.3 outside 10:00-18:59, 0.6 inside) plus both counts, capped at 1.0; it always lies in [0.3, 1.0] |
| PatternScoring.ConfidenceMonotone | backend/src/main/java/com/pianoteacher/service/ScheduleService.java:334-347 | more matching bookings never lower the confidence |
| PatternScoring.MidDayAtLeastOffHours | backend/src/main/java/com/pianoteacher/service/ScheduleService.java:340-344 | with equal counts, a mid-day slot scores at least as high as an early or late one |
| PatternScoring.Reason | backend/src/main/java/com/pianoteacher/service/ScheduleService.java:350-360 | the rationale starts with the base sentence and grows by exactly the notes appended |
| PatternScoring.ReasonRoundTrip | backend/src/main/java/com/pianoteacher/service/ScheduleService.java:350-360 | reading the notes back from a rationale recovers which counts were positive, day note before time note |
| PatternScoring.Score | backend/src/main/java/com/pianoteacher/service/ScheduleService.java:329-364 | a scored slot keeps its times and duration; its confidence is the time-of-day base plus the weekday and hour match counts, capped at 1.0, and so lies in [0.3, 1.0]; its rationale is the base sentence followed by the day note exactly when some window booking shares the weekday and the time note exactly when one shares the hour |
| PatternScoring.ScoreAll | backend/src/main/java/com/pianoteacher/service/ScheduleService.java:329-364 | each candidate is scored on its own, in candidate order, keeping times and count |
| PatternScoring.TuesdayAfternoonSaturates | backend/src/main/java/com/pianoteacher/service/ScheduleService.java:334-363 | three earlier Tuesday 14:00 bookings push a Tuesday 14:00 slot to the 1.0 cap with both notes |
| Ranking.Insert | backend/src/main/java/com/pianoteacher/service/ScheduleService.java:255 | inserting into a sorted list keeps it sorted by confidence and adds exactly that element |
| Ranking.InsertStable | backend/src/main/java/com/pianoteacher/service/ScheduleService.java:255 | insertion puts the new element before the existing elements of equal confidence |
| Ranking.SortByConfidence | backend/src/main/java/com/pianoteacher/service/ScheduleService.java:255 | the sort is a permutation, with confidence non-increasing |
| Ranking.SortIsStable | backend/src/main/java/com/pianoteacher/service/ScheduleService.java:255 | for every confidence value, the elements with that value keep their input order |
| Ranking.Limit | backend/src/main/java/com/pianoteacher/service/ScheduleService.java:258 | the result is a prefix of length min(n, length) |
| Ranking.PrefixNonIncreasing | backend/src/main/java/com/pianoteacher/service/ScheduleService.java:255-258 | a prefix of a sorted list is sorted |
| Ranking.WithConfidenceKeepsStartOrder | backend/src/main/java/com/pianoteacher/service/ScheduleService.java:255 | the elements of one confidence value in a chronological list are chronological |
| Ranking.PositionsWithin | backend/src/main/java/com/pianoteacher/service/ScheduleService.java:255 | two equal-confidence positions of a list keep their order among the elements of that confidence |
| Ranking.TiesStayChronological | backend/src/main/java/com/pianoteacher/service/ScheduleService.java:255 | after sorting chronological candidates, equal confidences appear in chronological order |
| SchedulingSuggestions.CheckRequest | backend/src/main/java/com/pianoteacher/service/ScheduleService.java:230-243 | the duration is checked first, then start after end (equal dates pass), then start in the past, then whether the student exists |
| SchedulingSuggestions.Rank | backend/src/main/java/com/pianoteacher/service/ScheduleService.java:252-258 | min(20, number of candidates) suggestions, sorted by confidence, each the score of one of the candidates, forming a prefix of the stable sort |
| SchedulingSuggestions.SortedScores | backend/src/main/java/com/pianoteacher/service/ScheduleService.java:252-255 | sorting keeps one entry per candidate, each the score of a candidate |
| SchedulingSuggestions.RankKeepsBest | backend/src/main/java/com/pianoteacher/service/ScheduleService.java:252-258 | a candidate whose score is left out lost to twenty kept suggestions, the last of which scores at least as high |
| SchedulingSuggestions.FreeOfExisting | backend/src/main/java/com/pianoteacher/service/ScheduleService.java:280-286 | a slot free of every busy interval overlaps none of the bookings it was built from |
| SchedulingSuggestions.GetSchedulingSuggestions | backend/src/main/java/com/pianoteacher/service/ScheduleService.java:228-259 | it fails exactly when a request check fails, with that check's error; otherwise the answer is the ranked top twenty of the free candidates scored against the student's bookings that start in the window, each on the grid with the requested length and confidence in [0.3, 1.0], none overlapping such a booking |
| SchedulingSuggestions.SuggestionsKeepTheBest | backend/src/main/java/com/pianoteacher/service/ScheduleService.java:228-259 | every free on-grid lesson of the requested length is suggested, unless twenty suggestions were kept and the last scores at least as high |
| SchedulingSuggestions.SuggestionTiesChronological | backend/src/main/java/com/pianoteacher/service/ScheduleService.java:255-258 | suggestions of equal confidence appear in chronological order |
| SchedulingSuggestions.RankTiesChronological | backend/src/main/java/com/pianoteacher/service/ScheduleService.java:255-258 | ranking chronologically ordered candidates keeps equal confidences in chronological order |
| SchedulingSuggestions.EqualStartAndEndAccepted | backend/src/main/java/com/pianoteacher/service/ScheduleService.java:234-270 | a window with equal start and end is accepted, and from Monday 09:00 it still offers Monday 08:00 |
| SchedulingSuggestions.MondayEightInWindow | backend/src/main/java/com/pianoteacher/service/ScheduleService.java:268-301 | the window that opens and closes at Monday 09:00 has Monday 08:00 to 09:00 among its candidates |
| SchedulingSuggestions.CandidateBeforeWindowStart | backend/src/main/java/com/pianoteacher/service/ScheduleService.java:268 | a window opening at 10:30 still offers 08:00 that day |
| SchedulingSuggestions.LessonBeforeWindowCanBeDoubleBooked | backend/src/main/java/com/pianoteacher/service/ScheduleService.java:244-249 | only bookings starting inside the window are checked, so a lesson that started before it can be suggested again on top of itself: a Monday 10:30 window suggests 08:00 to 09:00 although the student is booked then |
| SchedulingSuggestions.CandidateAfterWindowEnd | backend/src/main/java/com/pianoteacher/service/ScheduleService.java:270-278 | a window closing at 08:30 still offers 19:00-20:00 that day |
| SchedulingSuggestions.WeekendWindowIsEmpty | backend/src/main/java/com/pianoteacher/service/ScheduleService.java:272 | a window from Saturday that closes by Monday 08:00 offers nothing |
| SchedulingSuggestions.FreeTuesdayScenario | backend/src/main/java/com/pianoteacher/service/ScheduleService.java:275-344 | on a free Tuesday with no bookings, every hour from 08:00 to 19:00 is offered, scored 0.6 from 10:00 to 18:00 and 0.3 otherwise |
| SchedulingSuggestions.FreeTuesdayOffered | backend/src/main/java/com/pianoteacher/service/ScheduleService.java:275-301 | every hourly start from 08:00 to 19:00 of a free Tuesday is a candidate |
| SchedulingSuggestions.FreeTuesdayScore | backend/src/main/java/com/pianoteacher/service/ScheduleService.java:340-344 | with no booking history the hour alone decides the score: 0.6 from 10:00 to 18:00, 0.3 otherwise |
| BookingStore.IndexOf | backend/src/main/java/com/pianoteacher/service/ScheduleService.java:93-96 | finds a row with the id exactly when one exists |
| BookingStore.GetScheduleById | backend/src/main/java/com/pianoteacher/service/ScheduleService.java:93-96 | returns a stored row with that id, or "not found" exactly when there is none |
| BookingStore.Conflicts | backend/src/main/java/com/pianoteacher/service/ScheduleService.java:64-71 | exactly the student's rows overlapping the times, other than the excluded id; nothing when a time is missing |
| BookingStore.AppendKeepsNoDoubleBooking | backend/src/main/java/com/pianoteacher/service/ScheduleService.java:42-53 | adding a row that clashes with no stored row keeps the no-double-booking invariant |
| BookingStore.ReplaceKeepsNoDoubleBooking | backend/src/main/java/com/pianoteacher/service/ScheduleService.java:79-85 | replacing a row with one that clashes with no other row keeps the invariant |
| BookingStore.RemoveKeepsNoDoubleBooking | backend/src/main/java/com/pianoteacher/service/ScheduleService.java:88-91 | removing a row keeps the invariant |
| BookingStore.NoConflictNoClash | backend/src/main/java/com/pianoteacher/service/ScheduleService.java:64-75 | when the conflict query is empty, the new row clashes with no row it examined |
| BookingStore.InsertKeepsInvariant | backend/src/main/java/com/pianoteacher/service/ScheduleService.java:42-53 | inserting under the next id after an empty conflict query keeps the schema and the invariant |
| BookingStore.CreateSchedule | backend/src/main/java/com/pianoteacher/service/ScheduleService.java:34-54 | validation errors come first, carrying the error `validate()` reports, then a missing student id, an unknown student, and an overlap with one of the student's lessons, each exactly when it applies; it succeeds exactly when all checks pass, appending the lesson under the next id; a failure leaves the store unchanged; the schema and the no-double-booking invariant are preserved |
| BookingStore.Updated | backend/src/main/java/com/pianoteacher/service/ScheduleService.java:79-83 | the updated row keeps its id and takes every other field from the details |
| BookingStore.UpdateSchedule | backend/src/main/java/com/pianoteacher/service/ScheduleService.java:56-86 | the errors are, in order: not found, no student, no student id, unknown student, overlap with another lesson of that student, then the error `validate()` reports for the updated row; it succeeds exactly when all these pass, replacing the row with the updated one; a failure leaves the store unchanged; the invariant is preserved |
| BookingStore.ReplaceKeepsValid | backend/src/main/java/com/pianoteacher/service/ScheduleService.java:85 | saving a complete row under its own id keeps the schema |
| BookingStore.CommitKeepsStore | backend/src/main/java/com/pianoteacher/service/ScheduleService.java:84-85 | saving a valid row over an existing row under its id, after an empty conflict query, keeps the schema and the no-double-booking invariant |
| BookingStore.RescheduleSchedule | backend/src/main/java/com/pianoteacher/service/ScheduleService.java:191-212 | not found first, then an overlap with another lesson of the same student at the new times, then the error `validate()` reports for the moved row; it succeeds exactly when all these pass, moving only the times; a failure leaves the store unchanged; the invariant is preserved |
| BookingStore.Moved | backend/src/main/java/com/pianoteacher/service/ScheduleService.java:207-208 | the moved lesson has the new start and end, and every other field is the original's |
| BookingStore.DeleteSchedule | backend/src/main/java/com/pianoteacher/service/ScheduleService.java:88-91 | it fails exactly when no row has the id, leaving the store unchanged; otherwise the new store is the old one with exactly that row cut out, the other rows in their order and the id sequence untouched, so no id is reused; the schema and the invariant are preserved |
| BookingStore.RemoveKeepsValid | backend/src/main/java/com/pianoteacher/service/ScheduleService.java:88-91 | removing a row keeps the schema |
| BookingStore.RemoveDropsOnlyThatId | backend/src/main/java/com/pianoteacher/service/ScheduleService.java:88-91 | removing a row drops exactly the rows with its id |
| BookingStore.NoDoubleBookingIsNoEntityOverlap | backend/src/main/java/com/pianoteacher/model/Schedule.java:134-140 | the store invariant is exactly "no stored lesson `isOverlapping` another", whether or not the two rows share one student object |
| ProgressReportEntity.IsValidReportType | backend/src/main/java/com/pianoteacher/model/ProgressReport.java:238-241 | accepted exactly when the string equals one of the six constant names |
| ProgressReportEntity.Validate | backend/src/main/java/com/pianoteacher/model/ProgressReport.java:208-236 | passes exactly when the report is well formed; the checks run in the order student, blank type, unknown type, period, overall progress, then the four optional skill scores, and each error is reported exactly when the earlier checks pass and its own fails |
| ProgressReportEntity.ReportTypeIsExact | backend/src/main/java/com/pianoteacher/model/ProgressReport.java:212-241 | lower-case, unknown and padded names are refused, although a padded name is not blank |
| ProgressReportEntity.ProgressGrade | backend/src/main/java/com/pianoteacher/model/ProgressReport.java:243-253 | each grade covers exactly its half-open band of progress, and N/A means no progress |
| ProgressReportEntity.PerformanceLevel | backend/src/main/java/com/pianoteacher/model/ProgressReport.java:255-262 | each level covers exactly its half-open band, and N/A means no progress |
| ProgressReportEntity.GradeAgreesWithLevel | backend/src/main/java/com/pianoteacher/model/ProgressReport.java:243-262 | A+/A go with Excellent, B+/B with Good, C+/C with Satisfactory, D with Needs Improvement, F with Poor |
| ProgressReportEntity.GradeMonotone | backend/src/main/java/com/pianoteacher/model/ProgressReport.java:243-253 | a higher progress never earns a lower grade |
| ProgressReportEntity.PresentScores | backend/src/main/java/com/pianoteacher/model/ProgressReport.java:264-282 | at most four scores are averaged |
| ProgressReportEntity.PresentScoresExactly | backend/src/main/java/com/pianoteacher/model/ProgressReport.java:264-282 | a value is averaged exactly when one of the four skill fields holds it |
| ProgressReportEntity.SumBounds | backend/src/main/java/com/pianoteacher/model/ProgressReport.java:264-286 | the sum of n scores between lo and hi lies between n·lo and n·hi |
| ProgressReportEntity.AverageScore | backend/src/main/java/com/pianoteacher/model/ProgressReport.java:264-286 | 0 with no scores; otherwise the average times the count is the sum |
| ProgressReportEntity.Mean | backend/src/main/java/com/pianoteacher/model/ProgressReport.java:285 | the mean of a non-empty list times its length is its sum |
| ProgressReportEntity.MeanWithin | backend/src/main/java/com/pianoteacher/model/ProgressReport.java:285 | the mean lies between any lower and upper bound of the elements |
| ProgressReportEntity.AverageWithinScores | backend/src/main/java/com/pianoteacher/model/ProgressReport.java:264-286 | the average lies between the smallest and largest present score |
| ProgressReportEntity.AverageExample | backend/src/main/java/com/pianoteacher/model/ProgressReport.java:264-286 | 90, 75, 80 and 88 average to 83.25, and no scores average to 0 |
| LessonContentEntity.IsValidContentType | backend/src/main/java/com/pianoteacher/model/LessonContent.java:163-166 | accepted exactly when the string equals one of the six constant names |
| LessonContentEntity.Validate | backend/src/main/java/com/pianoteacher/model/LessonContent.java:142-161 | passes exactly when well formed; the student, title, missing type, unknown type, difficulty in 1..10 and duration ≥ 1 checks run in that order, and each error is reported exactly when the earlier checks pass and its own fails |
| LessonContentEntity.MarkAsCompleted | backend/src/main/java/com/pianoteacher/model/LessonContent.java:168-171 | the lesson becomes completed, dated `now`, and nothing else changes |
| LessonContentEntity.MarkAsIncomplete | backend/src/main/java/com/pianoteacher/model/LessonContent.java:173-176 | the lesson becomes not completed, without a date, and nothing else changes |
| LessonContentEntity.IsCompleted | backend/src/main/java/com/pianoteacher/model/LessonContent.java:178-180 | true exactly when `completed` is an explicit true |
| LessonContentEntity.MarkingFacts | backend/src/main/java/com/pianoteacher/model/LessonContent.java:168-176 | un-marking is idempotent, the later mark wins, and marking never changes validity |
| LessonContentEntity.DifficultyDescription | backend/src/main/java/com/pianoteacher/model/LessonContent.java:182-189 | each description covers exactly its band of levels, and Unknown means no level |
| LessonContentEntity.DifficultyBandsOfValidLevels | backend/src/main/java/com/pianoteacher/model/LessonContent.java:182-189 | over 1..10 each description covers exactly two consecutive levels |
| ResponseCache.SetCache | frontend/src/js/main.js:356-367 | the key then holds the data stamped `now` with the given lifetime or five minutes, and every other key is unchanged |
| ResponseCache.GetCache | frontend/src/js/main.js:369-379 | data is returned exactly for a present, fresh key; a stale key is deleted; otherwise the cache is unchanged |
| ResponseCache.CleanupCache | frontend/src/js/main.js:462-469 | exactly the fresh entries remain, unchanged |
| ResponseCache.SetThenGet | frontend/src/js/main.js:361-379 | a key just written reads back its data up to and including its lifetime, and nothing after |
| ResponseCache.SetLeavesOtherKeys | frontend/src/js/main.js:361-379 | writing one key does not change what another key reads |
| ResponseCache.CleanupIsUnobservable | frontend/src/js/main.js:369-379 | at the same instant every key reads the same before and after a cleanup, and a second cleanup changes nothing |
| ResponseCache.DefaultTtlBoundary | frontend/src/js/main.js:356-374 | with the default lifetime an entry is fresh after 300 000 ms and stale after 300 001 ms |
| LanguageManager.FallbackMessages | frontend/src/js/main.js:26-192 | the Chinese table for zh, the English table for everything else |
| LanguageManager.LoadMessages | frontend/src/js/main.js:20-24 | only the language's table entry changes |
| LanguageManager.Init | frontend/src/js/main.js:12-18 | a non-empty stored preference, otherwise English, becomes current, with only its table loaded |
| LanguageManager.GetMessage | frontend/src/js/main.js:194-198 | a non-empty text in the current table for the key is returned; otherwise the key itself |
| LanguageManager.SetLanguage | frontend/src/js/main.js:200-234 | an unsupported language changes nothing; a supported one becomes current and stored, with its table loaded and no other table touched |
| LanguageManager.GetDirection | frontend/src/js/main.js:236-240 | "rtl" exactly for ar, he and fa; "ltr" otherwise |
| LanguageManager.ConsistencyIsInvariant | frontend/src/js/main.js:12-214 | start-up gives a manager whose current table is loaded and whose tables are the built-in ones, and `setLanguage` keeps this so |
| LanguageManager.LookupAfterSwitch | frontend/src/js/main.js:194-214 | after switching to zh a key reads its Chinese text or itself, and an unsupported switch leaves every lookup unchanged |
| LanguageManager.UnsupportedStoredLanguage | frontend/src/js/main.js:12-192 | a stored "fr" becomes current and reads English text, and an empty stored string falls back to English |

## Left out

- **Floating point.** Confidence is modelled in exact tenths.
  - The source adds IEEE doubles, and sums such as 0.6 + 0.1 may round.
  - So computed ties, and therefore the order among suggestions, can differ
    from exact arithmetic. No bit-exact tie order is claimed.
  - Scores and the average use exact `real`s. NaN and infinities are not
    modelled.
- **Calendar and clock.** Time is whole minutes on a uniform calendar, with no
  time zones, seconds or date parsing. `now` is a parameter.
- **Student lookup.** `studentService.getStudentById` and
  `studentRepository.existsById` are modelled as membership in a set of student
  ids. The service's own lookups are not part of this model.
- **Saving with a preset id.** `scheduleRepository.save` is modelled as an
  insert under the next sequence value. A detached entity carrying an id would
  be merged instead; that is not modelled.
- **Row order.** None of the repository queries has an ORDER BY, so the
  database promises no order of the rows it returns. The model returns them
  in store order. Nothing depends on that order: the pattern counts are
  counts, and conflict lists are only tested for emptiness.
- **Concurrency.** The check-then-insert race in `createSchedule` is not
  modelled; operations run one at a time.
- BookingStore.CreateSchedule: when the student id is missing, the source's
  `existsById(null)` throws a framework exception. This is modelled as the
  error `StudentIdMissing`, without the exception's text.
- ScheduleEntity.IsOverlapping: a lesson without a student, or, for two
  lessons of the same student, a missing start on this lesson or a missing
  end on the other, or a missing end on this lesson or start on the other
  once this start is before the other end, throw NullPointerException in the
  source. The precondition excludes exactly these cases. Whether both lessons hold one shared
  student object is the parameter `sameStudentObject`, as with `EntityEquals`.
- ScheduleEntity.GetStatus: a missing start, or a missing end once `now` has
  reached the start, throws NullPointerException in the source. The
  precondition excludes exactly these cases.
- ScheduleEntity.GetDuration: a missing start or end throws
  NullPointerException in `Duration.between`, and so in
  `getDurationInHours`. The precondition excludes these cases.
- ScheduleEntity.EntityEquals: the same-object case is the parameter
  `sameReference`. Two distinct objects with equal fields and no ids are
  therefore modelled as unequal, as the source does.
- **Other service methods.** `changeScheduleLocation`, `updateScheduleNotes`,
  the count queries (`GROUP BY`), the location search, and the by-date
  filters are not modelled. They are not part of the scheduling core.
- **Transfer objects.** `TimeSlotSuggestionDTO` is the datatype `Suggestion`.
  Its `studentName` field is not modelled.
- **Money.** The rate is assumed to have scale 2 (whole cents), as its column
  declares. A rate with more decimals is not modelled.
- **Front end.**
  - The message tables are parameters; their texts are not copied.
  - JavaScript property lookup on plain objects also finds inherited names
    such as `constructor`. That quirk is not modelled.
  - DOM updates, `fetch`, timers, debounce/throttle and performance
    monitoring are not modelled.
  - `localStorage` is a field of the manager state.
- **Test expectations.** Some service tests expect candidates to start no
  earlier than the window start and to end no later than the window end. The
  code does not guarantee either. The lemmas `CandidateBeforeWindowStart` and
  `CandidateAfterWindowEnd` show the code's behaviour. The model follows the
  code. Likewise the conflict check sees only bookings that start inside the
  window, so a lesson begun before the window can be suggested again on top
  of itself; `LessonBeforeWindowCanBeDoubleBooked` shows one such case.
