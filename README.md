# Residence planning: a verified model

This project models the core of a small web application that runs a
seasonal care residence of 24 rooms ("la Saisonnale"). Staff see a
dashboard and a planning grid of the rooms. They open a resident's file to
change the room or attach documents, and they book new stays through a
reservation form. The model covers:

- the application state: selecting a resident, saving a reservation under
  a fresh id, and grouping residents into planning rows by room (`App`);
- the seed data helpers: reading `YYYY-MM-DD` texts, generating the stays
  that overlap a month, and sharing them out over the 24 rooms
  (`Constants`);
- the dashboard figures: August occupancy, arrivals and departures of the
  day, week and month, the scan for the coming period under 80 %, the
  search filter and the mean GIR dependency level (`Dashboard`);
- the reservation form: the free-room resolver, field updates and the
  required-field check on submit (`NewReservation`);
- the planning grid: Monday week start, day differences, week and month
  navigation, the visible days and title, and where each stay's bar is
  drawn (`PlanningCalendar`);
- the resident file: date display, new document records, and the room and
  document updates (`ResidentModal`).

Shared modules hold the JavaScript `Date` arithmetic these rely on
(`Calendar`), the string functions they use (`Strings`: `Number`,
`parseInt`, `split`, `trim`, `toLowerCase`, `includes`), the records
(`Types`), filtering and subsequences (`Seqs`) and `Option` (`Wrappers`).

A date is a `Day`: a count of days from 1970-01-01. An invalid `Date` is
`None`, and every comparison with it is false, as with `NaN` in
JavaScript. `new Date(y, m, d)` carries overflowing months and days into
the next month or year. Years 0 to 99 are read as 1900 to 1999.

Where the component keeps state that its handlers update, the model is a
class with those fields: `ReservationForm` (`formData`, `errors`),
`CalendarController` (`view`, `currentDate`) and `ResidentEditor`
(`editRoom`, `documents`). Where the source runs a loop, the model is a
method with a loop proved against a specification function:
`GetAugustOccupancy`, `AvailableRooms`, `GenerateStaysForMonth`,
`GeneratePlanningData` (over an array of 24 rooms), `PlanningData` and
`LowOccupancyScan`. `GetStartOfWeek`, which updates a `Date` in place
without a loop, is a straight-line method proved equal to `WeekStart`.

## Model

| member | source | states |
|---|---|---|
| App.SelectResidentById | App.tsx:20-27 | No id selects nobody. An id selects the resident carrying it, or nobody when no resident carries it. |
| App.MathMax | App.tsx:35 | `Math.max` of no values is -Infinity. Otherwise it is a value of the list and no value exceeds it. |
| App.IdsOf | App.tsx:35 | The ids mapped out of the residents, one per resident and in order. |
| App.NextIdAsWrittenDuplicates | App.tsx:35 | With no residents the id is -Infinity (`-Infinity \|\| 0` keeps -Infinity). A second save yields the same id again. |
| App.MaxId | App.tsx:35 | Of a non-empty list: an id of the list, at least every id in it. |
| App.NextId | App.tsx:33-35 | 1 for an empty list; otherwise one more than the largest id, so above every existing id. |
| App.NextIdAgrees | App.tsx:35 | On any non-empty list the code as written computes `NextId`. |
| App.NewResident | App.tsx:31-37 | The new resident carries the form data unchanged, the given id and the status 'À venir'. |
| App.SaveReservation | App.tsx:29-40 | Appends one resident and keeps the others. The newcomer holds the form data, status 'À venir' and an id no existing resident has. |
| App.SaveKeepsIdsDistinct | App.tsx:35-38 | Saving keeps resident ids pairwise distinct. |
| App.PlanningData | App.tsx:43-59 | The loop over residents with its room map builds exactly the grouped rows `Grouped`. |
| App.RoomOrderMembers | App.tsx:47-50 | The row names are the non-empty rooms some resident has, each once. |
| App.StaysOfAbsent | App.tsx:47-51 | A room no resident has collects no stay. |
| App.StaysOfFilter | App.tsx:51-56 | A room's stays are its residents' stays, one per resident in order: id and resident id are the resident's id, start and end its arrival and departure. |
| App.FirstWithRoom | App.tsx:48 | The index of the first resident in a room; it exists exactly when some resident has the room. |
| App.RoomOrderFirstAppearance | App.tsx:46-58 | Rows come in the order in which their rooms first appear among the residents (Map insertion order). |
| App.GroupedSpec | App.tsx:43-59 | Rows have distinct non-empty names, exactly the rooms in use, in first-appearance order. Each row is non-empty and holds its room's residents' stays. |
| App.GroupedNames | App.tsx:47-58 | Row names are non-empty and distinct, and they are exactly the rooms some resident has. |
| App.GroupedStays | App.tsx:51-56 | Every row holds at least one stay, namely the stays of its room's residents. |
| App.GroupedOrder | App.tsx:58 | Rows follow the first appearance of their rooms. |
| App.ResidentInItsRow | App.tsx:46-56 | Every resident with a room has a row named after that room. |
| Constants.ParseDateOfFullDate | constants.ts:4-7 | On a `YYYY-MM-DD` text of year 100 or later, `parseDate` gives day D of month M of year Y. |
| Constants.ParseDate | constants.ts:4-7 | A date exactly when the text has at least three '-'-separated parts, each of which `Number` reads. When those numbers form a real date from year 100 on, the result is that date. |
| Constants.DateOfNumbers | constants.ts:6 | `new Date(year, month - 1, day)` is valid exactly when all three numbers are. For a real date from year 100 on, it is that date. |
| Constants.SplitFullDate | constants.ts:5 | A `YYYY-MM-DD` text splits on '-' into three fields, and `Number` reads each as its decimal value. |
| Constants.ParseDateNeedsThreeParts | constants.ts:5-6 | A text with fewer than three '-'-separated parts gives an invalid date. |
| Constants.MonthStayOf | constants.ts:127-134 | A resident has a stay in the month exactly when both dates parse, arrival ≤ month end and departure ≥ month start. The stay carries the parsed dates. |
| Constants.GenerateStaysForMonth | constants.ts:123-144 | The loop builds `MonthStays` between `new Date(year, month, 1)` and `new Date(year, month + 1, 0)`. |
| Constants.MonthStaysStep | constants.ts:127-141 | One more resident adds one stay, numbered one past the stays so far and carrying its parsed dates, exactly when it overlaps the month. Otherwise nothing is added. |
| Constants.NumberedStaysNumbering | constants.ts:125-136 | The counter numbers the pushed stays 1, 2, 3, … |
| Constants.NumberedStaysIds | constants.ts:126-141 | The stays belong, in order, to exactly the residents that have a stay. |
| Constants.NumberedStaysDates | constants.ts:135-140 | There is one stay per kept resident, and stay k carries the dates the k-th kept resident's stay has. |
| Constants.MonthStaysSpec | constants.ts:123-144 | Stays are numbered from 1 and belong, in order, to exactly the residents overlapping the month. Each stay starts by the month's end and ends from its start on. |
| Constants.MonthStaysResidents | constants.ts:126-142 | The stays belong, in order, to exactly the residents overlapping the month. |
| Constants.MonthStaysNumbered | constants.ts:128-137 | The stays are numbered 1, 2, 3, … |
| Constants.MonthStaysAcross | constants.ts:134-140 | Every stay has both dates, starts by the month's last day and ends from its first day on. |
| Constants.MonthStaysDates | constants.ts:126-142 | Stay k belongs to the k-th resident overlapping the month, and starts and ends on that resident's parsed arrival and departure. |
| Constants.MonthEndsIncluded | constants.ts:134 | A stay that arrives on the month's last day or leaves on its first day counts as overlapping. |
| Constants.BucketOf | constants.ts:156-161 | A stay goes to a room exactly when its resident exists and `parseInt(room, 10)` is in 1..24. The room is that number, read from the stay's resident. |
| Constants.PlannedRooms | constants.ts:149-166 | There are 24 rooms. Room k is named "Chambre k" and holds the stays that go to room k. |
| Constants.GeneratePlanningData | constants.ts:149-166 | Filling an array of 24 rooms stay by stay yields `PlannedRooms`. |
| Constants.FileNextStay | constants.ts:155-163 | One step of the loop: after stay j the array holds `PlannedRooms` of the first j + 1 stays. |
| Constants.FileStay | constants.ts:159-161 | Pushes the stay onto its room's list and leaves the other rooms as they were. |
| Constants.RoomsGrow | constants.ts:155-163 | Taking one more stay into account is filing it into its room. |
| Constants.BucketSpec | constants.ts:155-163 | A room's stays keep the input order. Each has that room, and every stay with that room is there. |
| Constants.BucketStaysSpec | constants.ts:155-163 | The same, for the room test of `generatePlanningData`. |
| Constants.TotalBucketedCount | constants.ts:155-163 | Together the rooms hold each placeable stay exactly once, so no more stays than were generated. |
| Constants.TotalCount | constants.ts:155-163 | Rooms 1..k together hold the stays sent to one of them, each once. |
| Constants.SeedIds | constants.ts:9-113 | The seed lists 24 residents with ids 1..24, each in the room of its own number, ids distinct. |
| Constants.SeedOrdered | constants.ts:9-113 | Every seed resident's arrival and departure parse, and the arrival comes before the departure. |
| Dashboard.OccupiedOn | components/Dashboard.tsx:10-16 | At most the number of residents are present on a day. |
| Dashboard.AugustDays | components/Dashboard.tsx:5-8 | The 31 days `new Date(2025, 7, day)` of August 2025. |
| Dashboard.CeilDiv | components/Dashboard.tsx:21 | `Math.ceil(a / b)`: the least q with q·b ≥ a. |
| Dashboard.GetAugustOccupancy | components/Dashboard.tsx:2-22 | The day loop computes `AugustRate`: the ceiling of the percentage of room-days occupied out of 31 × 24. |
| Dashboard.OccupiedDaysStep | components/Dashboard.tsx:17 | Each loop step adds that day's count. |
| Dashboard.NoResidentsNoOccupancy | components/Dashboard.tsx:19-21 | Without residents the rate is 0 and the low-occupancy alert shows. |
| Dashboard.AddingResidentNeverLowersRate | components/Dashboard.tsx:10-21 | One more resident never lowers the August rate. |
| Dashboard.RateBound | components/Dashboard.tsx:19-21 | The rate is at most the ceiling of 100·31·n / (31·24), so at most 100 with 24 residents or fewer. |
| Dashboard.PresentOnBothEnds | components/Dashboard.tsx:15 | A resident is present on a day exactly when arrival ≤ day ≤ departure, both ends included. |
| Dashboard.CountOn | components/Dashboard.tsx:45-55 | Daily arrivals or departures are at most the number of residents. |
| Dashboard.CountBetween | components/Dashboard.tsx:65-93 | Arrivals or departures over a period are at most the number of residents. |
| Dashboard.SundayWeekStart | components/Dashboard.tsx:58-62 | The week starts on the Sunday on or before today, and today is within its seven days. |
| Dashboard.SundayWeekStartIsSetDate | components/Dashboard.tsx:59 | `setDate(getDate() - getDay())` lands on that Sunday. |
| Dashboard.PeriodsOf | components/Dashboard.tsx:58-81 | The periods are today, Sunday to Saturday of its week, and the first to last day of its month. |
| Dashboard.MovementCounts | components/Dashboard.tsx:45-93 | Each count is at most the number of residents. The daily count is at most the weekly count when today lies in the week, and at most the monthly count when today lies in the month. |
| Dashboard.ArrivalsDepartures | components/Dashboard.tsx:40-107 | For arrivals and departures alike, daily ≤ weekly ≤ number of residents. Outside years 0..99, daily ≤ monthly. |
| Dashboard.OnDayWithinPeriod | components/Dashboard.tsx:45-93 | A movement on a day inside a period is counted in that period. |
| Dashboard.DailyWithinWeekly | components/Dashboard.tsx:45-75 | Daily count ≤ weekly count ≤ number of residents, and the monthly count ≤ number of residents. |
| Dashboard.DailyWithinMonthly | components/Dashboard.tsx:45-93 | Outside years 0..99, the daily count ≤ the monthly count. |
| Dashboard.TodayInMonth | components/Dashboard.tsx:78-81 | Outside years 0..99, today lies between the first and last day of its month. |
| Dashboard.SundayWeekBeforeMondayWeek | components/Dashboard.tsx:59 | The dashboard week starts the day before the planning's Monday week, or six days after it on a Sunday. |
| Dashboard.LowOccupancyScan | components/Dashboard.tsx:115-133 | Start and end are both set or both null. They are null exactly when no upcoming point is under 80 %. Otherwise they are the dates of the first run of upcoming low points, which ends before the next upcoming high point. |
| Dashboard.PastPointSkipped | components/Dashboard.tsx:123 | A point before today leaves the scan's findings unchanged. |
| Dashboard.LowPointJoinsRun | components/Dashboard.tsx:124-127 | A low upcoming point extends the current run or starts it. |
| Dashboard.RunEndsAtHighPoint | components/Dashboard.tsx:128-129 | A high upcoming point after a low run closes the first low run. |
| Dashboard.FilteredResidents | components/Dashboard.tsx:136-144 | A blank search keeps everyone. Any other search keeps, in order, exactly the residents whose name, room or family contact contains the trimmed lower-cased term. Each kept resident is kept as many times as it appears. |
| Dashboard.BlankSearchKeepsEveryone | components/Dashboard.tsx:137-143 | A search that is only spaces matches every resident. |
| Dashboard.Digits | components/Dashboard.tsx:167 | `replace(/\D/g, '')` leaves only digits and is no longer than the text. One character stays when it is a digit and goes otherwise. |
| Dashboard.DigitsKept | components/Dashboard.tsx:167 | The result is a subsequence of the text. It holds every digit of the text as often as the text does, and nothing else. |
| Dashboard.GirValue | components/Dashboard.tsx:166-170 | A value exactly when the code has digits and they read as a number in 1..6. That number is the value. |
| Dashboard.ParseIntSingle | components/Dashboard.tsx:167 | `parseInt` of no digits is NaN; of one digit, that digit's value. |
| Dashboard.GirOfLastChar | components/Dashboard.tsx:166-169 | Appending a non-digit changes nothing. Appending a digit to a code without digits gives that digit when it is 1..6, and nothing otherwise. |
| Dashboard.GirOfNoDigit | components/Dashboard.tsx:167-170 | A code without digits is left out. |
| Dashboard.GirCodes | components/Dashboard.tsx:166-170 | "GIR 3" gives 3 and "GIR 1" gives 1; "GIR 7", "" and "GIR x" give nothing. |
| Dashboard.GirCodesKept | components/Dashboard.tsx:166-170 | "GIR 3" gives 3 and "GIR 1" gives 1. |
| Dashboard.GirCodesDropped | components/Dashboard.tsx:166-170 | "GIR 7" is out of range, "" and "GIR x" have no digit: none gives a value. |
| Dashboard.GirValues | components/Dashboard.tsx:166-170 | At most one value per resident, each in 1..6. |
| Dashboard.GirValuesOfKept | components/Dashboard.tsx:166-170 | One value per resident whose GIR code is valid, in order: the i-th is the code of the i-th resident `Filter` keeps. |
| Dashboard.GirValuesSkip | components/Dashboard.tsx:166-170 | A resident without a valid GIR contributes nothing. |
| Dashboard.GirValuesKeep | components/Dashboard.tsx:166-170 | A resident with a valid GIR contributes its value ahead of the rest. |
| Dashboard.GirMean | components/Dashboard.tsx:172-173 | 'N/A' exactly when no GIR is valid. Otherwise a sum over a count with count ≤ sum ≤ 6·count, so the mean lies in 1..6. |
| Dashboard.GirMeanOfKept | components/Dashboard.tsx:166-173 | The mean's count is the number of residents with a valid GIR, and its sum is the sum of their values. |
| Dashboard.GirMeanExample | components/Dashboard.tsx:166-173 | "GIR 3", "GIR 7", "GIR 1", "" and "GIR x" average to 4/2: only 3 and 1 count. |
| Dashboard.GirMeanOfFive | components/Dashboard.tsx:166-173 | The same for any residents carrying those five codes. |
| NewReservation.FreeRooms | components/NewReservationModal.tsx:45-73 | The kept rooms follow the order of rooms "1".."24", and none of them is occupied. |
| NewReservation.AvailableRooms | components/NewReservationModal.tsx:44-78 | The loop over residents builds the occupied set and yields `Available`. |
| NewReservation.AllRoomsWithoutDates | components/NewReservationModal.tsx:47-50 | Without an arrival or a departure, all 24 rooms are offered. |
| NewReservation.NoRoomsForReversedDates | components/NewReservationModal.tsx:57-59 | Arrival on or after departure offers no room. |
| NewReservation.AvailableAscending | components/NewReservationModal.tsx:45-73 | The offered rooms are a subsequence of "1".."24", so they are in ascending order. |
| NewReservation.RoomExcludedIff | components/NewReservationModal.tsx:61-73 | With valid, ordered dates, a room is withheld exactly when a complete resident of that room overlaps the stay. |
| NewReservation.SameDayHandoff | components/NewReservationModal.tsx:68 | A resident leaving on the arrival day, or arriving on the departure day, does not block. |
| NewReservation.IncompleteResidentNeverBlocks | components/NewReservationModal.tsx:64 | A resident missing a room, an arrival or a departure never blocks. |
| NewReservation.MoreResidentsFewerRooms | components/NewReservationModal.tsx:61-73 | Another resident can only take rooms away. |
| NewReservation.Slot | components/NewReservationModal.tsx:81 | Each of the seven named text inputs has a field of its own, found exactly by its `name`; every other name goes to the details. |
| NewReservation.TextOfSetText | components/NewReservationModal.tsx:91 | `[name]: value` changes the text under that name only, and leaves the checkboxes and the documents alone. |
| NewReservation.WithField | components/NewReservationModal.tsx:87-92 | The input named by the change reads the new value, or the changed checkbox the new state. The documents are kept. |
| NewReservation.WithTextField | components/NewReservationModal.tsx:90-92 | A text change sets the input of that `name`, also when it is given as a detail key, and leaves inputs of other names, the checkboxes and the documents alone. |
| NewReservation.WithCheckField | components/NewReservationModal.tsx:87-89 | A checkbox change sets that flag and leaves the rest alone. |
| NewReservation.RequiredErrors | components/NewReservationModal.tsx:96-101 | There is an error exactly for each empty field among name, arrival, departure, room and GIR, each with its message, and for no other key. |
| NewReservation.SubmitAcceptedIff | components/NewReservationModal.tsx:103-108 | Submit saves exactly when all five required fields are filled. |
| NewReservation.EmptyFormRejected | components/NewReservationModal.tsx:95-103 | The initial form yields five errors. |
| NewReservation.ReservationForm.constructor | components/NewReservationModal.tsx:17-42 | The form starts with empty fields and no errors. |
| NewReservation.ReservationForm.HandleChange | components/NewReservationModal.tsx:80-93 | The changed field gets its new value, and that field's error is cleared. No other error changes. |
| NewReservation.ReservationForm.HandleSubmit | components/NewReservationModal.tsx:95-109 | The form is saved unchanged when the required fields are filled. Otherwise the errors become exactly the required-field errors. |
| PlanningCalendar.WeekStart | components/PlanningCalendar.tsx:16-22 | The week starts on the Monday on or before the date. A Sunday belongs to the week that started six days earlier. |
| PlanningCalendar.GetStartOfWeek | components/PlanningCalendar.tsx:16-22 | The `setDate(getDate() - day + …)` computation yields `WeekStart`. |
| PlanningCalendar.WeekStartUnique | components/PlanningCalendar.tsx:16-22 | The only Monday within six days before a date is its week start. |
| PlanningCalendar.WeekStartIdempotent | components/PlanningCalendar.tsx:16-22 | A Monday is its own week start. |
| PlanningCalendar.UtcDay | components/PlanningCalendar.tsx:26-27 | `Date.UTC(y, m, d)` of a date outside years 0..99 is that date's day. |
| PlanningCalendar.DateDiffInDays | components/PlanningCalendar.tsx:24-29 | The floor of the UTC difference over a day's milliseconds: b − a outside years 0..99. |
| PlanningCalendar.DateDiffLaws | components/PlanningCalendar.tsx:24-29 | The difference is zero on the same day, antisymmetric and additive. |
| PlanningCalendar.ShiftWeeks | components/PlanningCalendar.tsx:42-54 | `setDate(getDate() ± 7)` moves exactly a week. |
| PlanningCalendar.MonthSkippedAsWritten | components/PlanningCalendar.tsx:52 | From January 31st, `setMonth(getMonth() + 1)` lands in March, skipping February. |
| PlanningCalendar.ShiftMonths | components/PlanningCalendar.tsx:40-52 | k calendar months later, with the day kept or clamped to the target month's last day. |
| PlanningCalendar.ShiftMonthsRoundTrip | components/PlanningCalendar.tsx:36-58 | k months forward and back returns to the same month, and to the same date when the day is at most 28. |
| PlanningCalendar.CalendarController.constructor | components/PlanningCalendar.tsx:33-34 | The grid starts in month view on July 1st, 2025. |
| PlanningCalendar.CalendarController.SetView | components/PlanningCalendar.tsx:100-101 | Switching the view keeps the date. |
| PlanningCalendar.CalendarController.HandlePrev | components/PlanningCalendar.tsx:36-46 | Month view goes one month back as `setMonth` does, keeping the day of month (which may overflow); week view goes seven days back. The view is unchanged. |
| PlanningCalendar.CalendarController.HandleNext | components/PlanningCalendar.tsx:48-58 | Month view goes one month forward as `setMonth` does, keeping the day of month (which may overflow); week view goes seven days forward. The view is unchanged. |
| PlanningCalendar.WeekNextPrev | components/PlanningCalendar.tsx:42-54 | In week view, next then previous restores the date exactly. |
| PlanningCalendar.ShiftMonthsAsWrittenClamp | components/PlanningCalendar.tsx:40-52 | `setMonth` lands as many days past the clamped month step as the day of month exceeds the target month's length; on days 1..28 the two agree. |
| PlanningCalendar.MonthNextPrev | components/PlanningCalendar.tsx:40-52 | In month view, next then previous returns to the very same date whenever its day of month is at most 28. |
| PlanningCalendar.MonthRoundTripAsWritten | components/PlanningCalendar.tsx:40-52 | `setMonth` one month forward then back returns to the same date when its day of month is at most 28. |
| PlanningCalendar.MonthRoundTripAsWrittenLeavesMonth | components/PlanningCalendar.tsx:40-52 | From January 31st, next then previous ends in February (day 31 − days of February), not back in January. |
| PlanningCalendar.MonthDay | components/PlanningCalendar.tsx:65-67 | Outside years 0..99, the month view has as many columns as the month has days; column i is day i + 1. |
| PlanningCalendar.MonthDays | components/PlanningCalendar.tsx:65-67 | Outside years 0..99, one column per day of the current month, column i being day i + 1 of that month. |
| PlanningCalendar.WholeMonth | components/PlanningCalendar.tsx:65-67 | `new Date(y, m + 1, 0).getDate()` days of `new Date(y, m, i + 1)` are the days 1..n of the month, in order. |
| PlanningCalendar.DayOfMonthNamed | components/PlanningCalendar.tsx:67 | `new Date(y, m, d)` of a real day d of the month, from year 100 on, is that day. |
| PlanningCalendar.MonthTitle | components/PlanningCalendar.tsx:68 | The title is the French month name, a space, and the year, which `Number` reads back. |
| PlanningCalendar.NameThenYear | components/PlanningCalendar.tsx:68 | In `name + " " + year` the name comes first, then a space, and the rest reads back as the year. |
| PlanningCalendar.WeekDays | components/PlanningCalendar.tsx:71-76 | Seven days: day i is the week start plus i. |
| PlanningCalendar.MonthWindowDays | components/PlanningCalendar.tsx:64-69 | Outside years 0..99, the month view shows consecutive days 1..n of the month, including the current date, under the title "<Month> <year>". |
| PlanningCalendar.WeekWindowDays | components/PlanningCalendar.tsx:71-76 | The week view shows seven consecutive days from the week start, including the current date. |
| PlanningCalendar.WeekHeaders | components/PlanningCalendar.tsx:126 | The headers `dayNames[(getDay() + 6) % 7]` read lun. to dim. in order. |
| PlanningCalendar.WeekTitle | components/PlanningCalendar.tsx:77-82 | The week title names the start and end dates. The years differ only for a week from December into January. |
| PlanningCalendar.WeekTitleOf | components/PlanningCalendar.tsx:78-82 | The title starts with the start date's day and month, and ends with a space and the end date's year, which `Number` reads back. |
| PlanningCalendar.HeadThenYear | components/PlanningCalendar.tsx:78-82 | A text built as head, middle, a space and a year starts with the head, and its last numeral reads back as the year. |
| PlanningCalendar.YearTurn | components/PlanningCalendar.tsx:79 | Within six days the year changes only from December into January of the next year. |
| PlanningCalendar.VisibleWindowShape | components/PlanningCalendar.tsx:60-88 | Outside years 0..99, either view shows at least seven consecutive days that include the current date. |
| PlanningCalendar.BarAsWrittenPlain | components/PlanningCalendar.tsx:148-172 | As written, a drawn bar runs from the clipped start to the end clipped to the last visible day. |
| PlanningCalendar.BarAsWrittenBounds | components/PlanningCalendar.tsx:158-167 | As written, a bar starts inside the grid, lasts at least a day and stops before the last column. Stays ending by the first day, starting on the last day or of unknown residents are not drawn. |
| PlanningCalendar.LayoutAsWritten | components/PlanningCalendar.tsx:148-169 | As written: a stay of an unknown resident is hidden. A bar needs both dates valid, and on consecutive days from year 100 on it fits the grid short of the last column. |
| PlanningCalendar.LastColumnUncoveredAsWritten | components/PlanningCalendar.tsx:164-166 | A stay covering the whole window leaves the last column empty. |
| PlanningCalendar.BarPlain | components/PlanningCalendar.tsx:148-172 | The corrected bar runs from the clipped start to the end clipped to the day after the last column. |
| PlanningCalendar.BarOfClipped | components/PlanningCalendar.tsx:163-169 | The corrected bar measures offset and duration from the clipped bounds. |
| PlanningCalendar.BarCovers | components/PlanningCalendar.tsx:148-172 | Column i is under the corrected bar exactly when arrival ≤ day i < departure, and the bar fits the grid. |
| PlanningCalendar.Layout | components/PlanningCalendar.tsx:148-169 | Corrected: a stay of an unknown resident is hidden. A bar needs both dates valid, and on consecutive days from year 100 on it fits within the grid. |
| PlanningCalendar.UnknownResidentHidden | components/PlanningCalendar.tsx:160-161 | A stay of a resident not in the list is never drawn. |
| ResidentModal.FormatDate | components/ResidentModal.tsx:22-26 | 'N/A' exactly for an empty text. |
| ResidentModal.FormatDateOfParts | components/ResidentModal.tsx:24-25 | "Y-M-D" with dash-free parts becomes "D/M/Y". |
| ResidentModal.FormatDateRoundTrip | components/ResidentModal.tsx:24-25 | Splitting the display on '/' gives the day, month and year back. |
| ResidentModal.FormatFullDateText | components/ResidentModal.tsx:22-26 | A `YYYY-MM-DD` text displays as DD/MM/YYYY. |
| ResidentModal.FormatDateWithoutDash | components/ResidentModal.tsx:24-25 | A non-empty text without '-' displays as "undefined/undefined/<text>". |
| ResidentModal.DocKindOf | components/ResidentModal.tsx:39 | The type is 'pdf' exactly when the MIME type contains "pdf". It is 'word' when it contains "word" and not "pdf", and 'image' otherwise. |
| ResidentModal.Hundredths | components/ResidentModal.tsx:40 | The size in hundredths of MB is rounded to nearest, within half a unit. |
| ResidentModal.FixedTwo | components/ResidentModal.tsx:40 | `toFixed(2)`: whole digits, a point and two decimals that read back as the number of hundredths. |
| ResidentModal.SizeLabel | components/ResidentModal.tsx:40 | The label is "<units>.<two decimals> MB" reading back as the rounded size. |
| ResidentModal.AddedAt | components/ResidentModal.tsx:41 | `toISOString().slice(0, 10)` is a 10-character full-date of the UTC day of `now`. |
| ResidentModal.NewDocument | components/ResidentModal.tsx:36-42 | The document carries id `now`, the file's name, its kind, its size label and its addition date. |
| ResidentModal.ResidentEditor.constructor | components/ResidentModal.tsx:29-30 | The edited room and the documents start as the resident's. |
| ResidentModal.ResidentEditor.HandleRoomChange | components/ResidentModal.tsx:49-52 | Sets the edited room. The update is the resident with only the room replaced. |
| ResidentModal.ResidentEditor.HandleAddDocument | components/ResidentModal.tsx:33-46 | Without a file nothing changes. Otherwise the new document is appended, and the update is the resident with only its documents replaced by the new list. |
| Types.RoomIds | components/NewReservationModal.tsx:45 | The 24 room ids "1".."24". |
| Types.RoomIdsAscending | components/ResidentModal.tsx:78-79 | Room id i reads back as i + 1, and the ids are distinct. |
| Types.FindById | constants.ts:156 | `find` by id: none exactly when no resident has the id, and otherwise one of them. |
| Calendar.DaysInMonth | components/PlanningCalendar.tsx:65 | 28 to 31 days; 29 exactly for February of a leap year. |
| Calendar.Weekday | components/PlanningCalendar.tsx:19 | `getDay()` is 0..6, and 0 (Sunday) exactly on the days 3 mod 7 from 1970-01-01, a Thursday. |
| Calendar.NewDate | constants.ts:6 | `new Date(y, m, d)`: years 0..99 are 1900..1999; month and day overflow carry. |
| Calendar.MakeDay | components/PlanningCalendar.tsx:67 | Month index m of a year is month m mod 12 + 1 of year y + m div 12. A real day of it is that calendar day. |
| Calendar.LastDayOfMonth | components/PlanningCalendar.tsx:65 | `new Date(y, m + 1, 0)` is the last day of month m, and its `getDate()` is the month's length. |
| Calendar.SetDateShift | components/PlanningCalendar.tsx:74 | `setDate(getDate() + k)` is k days later. |
| Calendar.NewDateOfCivil | constants.ts:6 | `new Date(y, m - 1, d)` of a real date from year 100 on is that date. |
| Calendar.CivilOfDayNumber | constants.ts:6 | Converting a date to its day and back gives the same year, month and day. |
| Calendar.CivilUnique | constants.ts:6 | A day is exactly one calendar date. |
| Calendar.DayNumberOrder | components/NewReservationModal.tsx:57-68 | Comparing days compares year, then month, then day. |
| Calendar.ParseFullDate | components/NewReservationModal.tsx:53-54 | A text parses only when it has the `YYYY-MM-DD` shape. |
| Calendar.FormatParseFullDate | components/NewReservationModal.tsx:53-54 | A parsed text formats back to itself. |
| Calendar.ParseFormatFullDate | components/NewReservationModal.tsx:53-54 | A formatted date of years 0..9999 parses back to the same day. |
| Strings.NumberOfDecimal | constants.ts:5 | `Number` reads a printed integer back. |
| Strings.NumberOf | constants.ts:5 | `Number` gives a number exactly for a trimmed text that is empty, all digits, or a sign then digits. All digits read as their decimal value. |
| Strings.ParseIntOfDecimal | constants.ts:158 | `parseInt(·, 10)` reads a printed natural number back. |
| Strings.ParseInt | components/Dashboard.tsx:167 | `parseInt` gives a number exactly when, after leading white space and an optional sign, a digit follows. |
| Strings.Split | constants.ts:5 | The parts hold no separator, and joining them gives the text back. |
| Strings.SplitJoin | components/ResidentModal.tsx:24 | Splitting joined separator-free parts gives the parts back. |
| Strings.Includes | components/Dashboard.tsx:140-142 | True exactly when the text occurs at some position. |
| Strings.Lower | components/Dashboard.tsx:138-142 | Same length, with each capital letter A–Z lowered. |
| Strings.Trim | components/Dashboard.tsx:138 | Has no white space at either end, and occurs within the text with only white space before and after it. |
| Seqs.FilterMultiplicity | components/Dashboard.tsx:139-143 | `filter` keeps every copy of a value the test accepts, and no copy of one it rejects. |

## Left out

- Time zones, time of day and `setHours` are not modelled. A date is a whole local day, and a `YYYY-MM-DD` text read by `new Date(text)` (which is UTC) is taken as that local day. This matches the source at UTC offsets from 0 to +14 hours. West of UTC, `new Date("YYYY-MM-DD")` is the evening before in local time and `setHours(0, 0, 0, 0)` keeps that earlier day, so there the source's presence counts, arrivals and departures, the low-occupancy scan and the planning bars (components/Dashboard.tsx:13-14, 46-90, 120-121; components/PlanningCalendar.tsx:153-156) fall one day earlier than in the model.
- NewReservation.WithField stores a text input named after a checkbox (`docsComplete`, `devisEnvoye`) among the details instead of replacing the boolean. The form has no such input.
- `new Date(text)` is modelled for the `YYYY-MM-DD` shape only (`ParseFullDate`). Other shapes the engine accepts, such as `YYYY`, `YYYY-MM` or a date with a time, are invalid dates in the model. The application stores and produces `YYYY-MM-DD` texts only (types.ts:20-21 and the date inputs).
- The model has no limit on the `Date` range (±100 000 000 days), and `Date` values are not objects that can be aliased.
- Floating point is not modelled. Percentages, means and the megabyte size are exact rationals with explicit rounding (`CeilDiv`, `Hundredths`, `FixedTwo`). `GirMean` returns the sum and the count instead of a `toFixed(2)` text.
- Strings.NumberOf reads integer numerals only. A leading '+' or '-' is read; decimal points, exponents and radix prefixes (`0x`, `0o`, `0b`) of `Number` are not modelled. The source feeds it date fields only.
- Strings.Lower lowers A–Z only. Accented capitals are left as they are, unlike `toLowerCase`.
- The 24-resident seed list is a function (`Seed`) with its ids, rooms and date order proved. Its other fields (phones, birth dates, and so on) are not part of the model.
- Constants.GenerateStaysForMonth and Constants.GeneratePlanningData take the residents and stays as parameters instead of reading the module constants. The July 2025 instance is the call with those arguments.
- Dashboard.LowOccupancyScan takes the `{ date, occupancy }` points its comment asks for. The component passes planning rooms instead, whose missing `date` gives invalid dates; the model returns an invalid date (`Some(None)`) in that case and does not skip it, as the source does not.
- Today's date, `Date.now()` and the chosen file are parameters (`today`, `now`, `file`), not reads of the clock or the file input. One `now` stands for both clock reads of the document handler, `Date.now()` for the id and `new Date()` for `addedAt` (components/ResidentModal.tsx:37, 41), which the source takes a moment apart.
- ResidentModal.AddedAt, ResidentModal.NewDocument and ResidentModal.ResidentEditor.HandleAddDocument require the current UTC year to be 0..9999, where `toISOString` prints four digits.
- Dashboard.DailyWithinWeekly is stated for any period whose week encloses today, which includes the one `PeriodsOf` builds.
- The year view of the planning is a disabled button in the source and is not modelled.
- NewReservationModal.tsx uses `useMemo` without importing it, and App.tsx does not pass its `residents` prop. The resolver is modelled on the residents it is meant to receive.
- App.tsx renders ResidentModal without `onUpdateResident` (App.tsx:87-90), so in the shipped wiring the document and room handlers throw right after their own state update (components/ResidentModal.tsx:45, 51) and no update ever reaches the resident list. ResidentModal.tsx also lacks the `return (` before its JSX (components/ResidentModal.tsx:52-53). The editor is modelled with the callback the props declare, reported as an out-parameter.
- Rendering (JSX, CSS classes, icons), the Escape key listener, `console.log`, tab navigation and the other components (cards, sidebar, communications) are not part of this model.

## Findings

| source | as written | input that shows it | evidently intended | confidence | as-written member | corrected member |
|---|---|---|---|---|---|---|
| App.tsx:35 | `(Math.max(...ids) \|\| 0) + 1`: for no residents `Math.max()` is -Infinity, which is truthy, so the id is -Infinity | saving twice into an empty list: both residents get id -Infinity. Latent as shipped: the list starts as the 24 seed residents (App.tsx:16) and is only appended to (App.tsx:38) | id 1 for the first resident, as the comment says, and distinct ids | high, not executed | App.NextIdAsWrittenDuplicates | App.NextId, App.SaveReservation, App.SaveKeepsIdsDistinct |
| components/PlanningCalendar.tsx:40-52 | `setMonth(getMonth() ± 1)` keeps the day of month, which overflows into the following month | January 31st, then "next": March 3rd (2nd in a leap year); February is never shown | move to the previous or next calendar month | medium, not executed | PlanningCalendar.MonthSkippedAsWritten, PlanningCalendar.MonthRoundTripAsWrittenLeavesMonth | PlanningCalendar.ShiftMonths, PlanningCalendar.ShiftMonthsRoundTrip |
| components/PlanningCalendar.tsx:164-166 | the stay end is clipped to the last visible day, and the duration is counted up to it | a stay from the first visible day to beyond the window: bar of n − 1 columns, and the last column stays empty | the bar reaches the right edge for a stay continuing past the window | medium, not executed | PlanningCalendar.LastColumnUncoveredAsWritten | PlanningCalendar.BarCovers |
