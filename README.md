# dietto-front core, modelled in Dafny

dietto-front is the web front end of a nutritionist's practice: an appointment scheduler
(day, week and month views, drag-and-drop rescheduling, a create/edit dialog), a
nutrition-plan builder, the sign-in / sign-up / password-reset forms, the route guard, the
navigation bar's initials and the FAQ accordion. This project models that core and proves
what it does.

- **Time.** An instant is an integer count of milliseconds since 1970-01-01T00:00 local time.
  The calendar is the proleptic Gregorian one, with day number ↔ civil date conversions
  proved to be inverses (`Calendar.CivilRoundTrip`, `Calendar.DaysRoundTrip`). On top of it
  are the JavaScript `Date` setters (`setHours`, `setDate`, `setFullYear`) and the
  constructor `new Date(y, m, 1)`, which reads a year from 0 to 99 as 1900 + y
  (`Calendar.NewDate`; `setFullYear` has no such rule),
  and the date-fns helpers the views use (`startOfWeek` with Monday first, `endOfWeek`,
  `startOfMonth`, `endOfMonth`, `isSameDay`, `isSameMonth`, `addDays`).
- **JavaScript strings.** The `split`, `parseInt`, `Number`, `padStart` and `toString`
  built-ins and the `\s` class are modelled on `seq<char>` (module `Text`).
- **Form.** Code that keeps state (React `useState` hooks updated by handlers) is a class
  whose methods state the whole new state. The pure computations are functions with lemmas.
- **Loops.** The loops of the week layout (grouping overlaps, first-fit column assignment,
  emitting positions) are methods with invariants, proved equal to recursive specification
  functions whose properties are proved separately.

Modules, one file each:
- `common.dfy`: option type and list helpers.
- `text.dfy`: JavaScript strings.
- `calendar.dfy`: time and calendar.
- `appointment.dfy`: the appointment record.
- `weekly_layout.dfy`, `weekly_view.dfy`, `daily_view.dfy`, `monthly_view.dfy`: the three scheduler views.
- `appointment_scheduler.dfy`: the scheduler.
- `appointment_modal.dfy`: the create/edit dialog.
- `diet.dfy`: the nutrition-plan builder.
- `form_rules.dfy`, `signin.dfy`, `signup.dfy`, `reset_password.dfy`: the validators and auth forms.
- `middleware.dfy`: the route guard.
- `navbar.dfy`: the navbar initials.
- `faq_accordion.dfy`: the FAQ accordion.

## Model

| member | source | states |
|---|---|---|
| Appointments.FindById | src/components/scheduler/weekly-view.tsx:74-75 | `find` by id: `None` exactly when no appointment has the id, otherwise the first appointment in the list with that id |
| Calendar.CivilRoundTrip | src/components/scheduler/appointment-modal.tsx:81-85 | every day number converts to a valid civil date that converts back to the same day number |
| Calendar.DaysRoundTrip | src/components/scheduler/appointment-modal.tsx:81-85 | every valid civil date converts to a day number that converts back to the same date |
| Calendar.SetFullYearFields | src/components/scheduler/appointment-modal.tsx:81-85 | `setFullYear(y, m - 1, d)` with a valid date lands on year y, month m, day d and keeps the time of day |
| Calendar.MakeTimeFields | src/components/scheduler/weekly-view.tsx:91 | a time built from day, hours, minutes, seconds and ms in range reads back exactly those fields |
| Calendar.SetDateShift | src/components/scheduler/weekly-view.tsx:89-90 | `setDate(getDate() + n)` is the same instant as adding n days |
| Calendar.WeekWindow | src/components/scheduler/appointment-scheduler.tsx:29-30 | `startOfWeek` (Monday first) is a Monday midnight at most 6 days back; `endOfWeek` is its last millisecond 7 days on |
| Calendar.InWeekWindow | src/components/scheduler/appointment-scheduler.tsx:29-31 | an instant is between start and end of the week of t exactly when it has the same week start |
| Calendar.InMonthWindow | src/components/scheduler/appointment-scheduler.tsx:33-35 | an instant is between `startOfMonth` and `endOfMonth` of t exactly when it is in the same month |
| Text.SplitJoin | src/components/scheduler/weekly-view.tsx:78 | `split` recovers the pieces that were joined with a separator they do not contain |
| Text.PaddedNumber | src/components/scheduler/appointment-modal.tsx:107 | `n.toString().padStart(w, "0")` is all digits, at least w long, and `Number` reads back n |
| WeeklyLayout.SortByStart | src/components/scheduler/weekly-view.tsx:125 | the sorted copy is a permutation of the day's appointments |
| WeeklyLayout.SortSorted | src/components/scheduler/weekly-view.tsx:125 | the copy is ordered by start time |
| WeeklyLayout.SortStable | src/components/scheduler/weekly-view.tsx:125 | appointments with the same start keep their input order (the sort is stable) |
| WeeklyLayout.GroupOverlaps | src/components/scheduler/weekly-view.tsx:128-161 | the `forEach` that builds overlapping groups computes the group specification |
| WeeklyLayout.GroupsOfSnoc | src/components/scheduler/weekly-view.tsx:137-150 | one more appointment joins the last group if it starts before its predecessor ends, else opens a new group |
| WeeklyLayout.GroupsFlatten | src/components/scheduler/weekly-view.tsx:128-161 | the groups, concatenated in order, are exactly the sorted list |
| WeeklyLayout.GroupsChained | src/components/scheduler/weekly-view.tsx:137-150 | inside a group each appointment starts before its predecessor ends; each group starts at or after the end of the previous group's last one |
| WeeklyLayout.FirstFit | src/components/scheduler/weekly-view.tsx:170-185 | the chosen column is the first whose last appointment ends no later than the start; every earlier column does not fit |
| WeeklyLayout.PlaceEffect | src/components/scheduler/weekly-view.tsx:173-190 | placing appends to the first fitting column, or opens a new column, and leaves the other columns unchanged |
| WeeklyLayout.PlaceMultiset | src/components/scheduler/weekly-view.tsx:179-190 | placing adds exactly that appointment to the columns |
| WeeklyLayout.AssignColumns | src/components/scheduler/weekly-view.tsx:166-191 | the `while (!placed …)` loop computes the first-fit packing |
| WeeklyLayout.PackStacked | src/components/scheduler/weekly-view.tsx:173-185 | inside every column each appointment starts at or after the end of the one just above it (adjacent pairs) |
| WeeklyLayout.PackSorted | src/components/scheduler/weekly-view.tsx:168-190 | the columns of a group sorted by start are each sorted by start |
| WeeklyLayout.PackNoOverlap | src/components/scheduler/weekly-view.tsx:168-190 | in a sorted group, any two appointments sharing a column do not overlap: each starts at or after the end of every one above it |
| WeeklyLayout.PackPartition | src/components/scheduler/weekly-view.tsx:166-191 | the columns hold exactly the group's appointments, as a multiset |
| WeeklyLayout.PackCount | src/components/scheduler/weekly-view.tsx:166-191 | a non-empty group gets at least one and at most one column per appointment |
| WeeklyLayout.PackColumnsActive | src/components/scheduler/weekly-view.tsx:168-190 | first fit uses no more columns than needed: for a sorted group whose appointments end after they start, some instant has at least as many appointments running as there are columns |
| WeeklyLayout.ZeroLengthExtraColumn | src/components/scheduler/weekly-view.tsx:177 | a zero-length appointment starting inside another opens a second column, although at no instant are two of them running |
| WeeklyLayout.PositionColumn | src/components/scheduler/weekly-view.tsx:195-212 | one positioned entry per appointment of a column, carrying that column index and the column count |
| WeeklyLayout.EmitColumn | src/components/scheduler/weekly-view.tsx:195-213 | the inner `forEach` appends the column's positioned entries in order |
| WeeklyLayout.EmitColumns | src/components/scheduler/weekly-view.tsx:194-214 | the outer `forEach` appends every column's entries with `columnCount = columns.length` |
| WeeklyLayout.LayoutDay | src/components/scheduler/weekly-view.tsx:118-215 | the per-day body computes the day layout specification |
| WeeklyLayout.PositionedAppointmentsByDay | src/components/scheduler/weekly-view.tsx:109-219 | seven entries, entry i being the layout of day i of the Monday-started week holding the current date |
| WeeklyLayout.DayLayoutMembers | src/components/scheduler/weekly-view.tsx:118-215 | a day's layout holds exactly the appointments starting that day, each as often as in the input |
| WeeklyLayout.LayoutGroupsShape | src/components/scheduler/weekly-view.tsx:164-212 | each group contributes its own block of entries, in group order; the block holds exactly the group's appointments, each with span 1, a column below its count, and as count the group's number of columns, at most the group's size |
| WeeklyLayout.LayoutEntryGroup | src/components/scheduler/weekly-view.tsx:164-212 | every entry of a day's layout comes from the overlap group holding its appointment, and its column count is that group's number of columns |
| WeeklyView.SlotIdRoundTrip | src/components/scheduler/weekly-view.tsx:78-86 | parsing a cell id `d-h-m` gives back its day, hour and minute |
| WeeklyView.SlotIdInjective | src/components/scheduler/weekly-view.tsx:244-250 | distinct cells have distinct ids |
| WeeklyView.WeeklyDropOutcome | src/components/scheduler/weekly-view.tsx:67-106 | a move is reported exactly when there is a target, the dragged appointment exists and the id parses; it keeps the duration to the millisecond |
| WeeklyView.DropIgnoredAsWritten | src/components/scheduler/weekly-view.tsx:67-72 | as written no cell is a registered drop target, so no target is reported and every drop leaves the appointments unchanged |
| WeeklyView.DropOnRegisteredSlot | src/components/scheduler/weekly-view.tsx:67-106 | with every grid cell registered as a drop target, dropping an existing appointment on cell (d, h, m) moves it to day d of the week at h:m |
| WeeklyView.RegisteredWeekTargets | src/components/scheduler/weekly-view.tsx:242-250 | with the cells registered, every reported target is the id of a grid cell |
| WeeklyView.DropAtSlot | src/components/scheduler/weekly-view.tsx:88-91 | a drop reported with target id `d-h-m` starts the appointment on day d counted from Monday, at h:m:00.000, which is the column the layout then shows it in |
| WeeklyView.BoxTop | src/components/scheduler/weekly-view.tsx:202-270 | the block's top is 80 px per hour after 08:00 (the -48 of the position and the +48 of the style cancel) |
| WeeklyView.BoxHeight | src/components/scheduler/weekly-view.tsx:272 | the height is the duration, but at least 20 px |
| WeeklyView.BoxInsideDay | src/components/scheduler/weekly-view.tsx:260-274 | the width is 100 / columnCount % and the block stays inside the day column |
| WeeklyView.BoxesSideBySide | src/components/scheduler/weekly-view.tsx:260-274 | blocks in different columns of one group do not overlap horizontally |
| WeeklyView.VisibleMembers | src/components/scheduler/weekly-view.tsx:256-258 | the dragged appointment is not drawn in the grid; every other one is |
| WeeklyView.WeeklyViewState.constructor | src/components/scheduler/weekly-view.tsx:35 | nothing is being dragged at first |
| WeeklyView.WeeklyViewState.HandleDragStart | src/components/scheduler/weekly-view.tsx:62-64 | the dragged id is recorded |
| WeeklyView.WeeklyViewState.HandleDragEnd | src/components/scheduler/weekly-view.tsx:67-106 | the drag is cleared and the reported move is the drop function's result |
| DailyView.DaySlotIdRoundTrip | src/components/scheduler/daily-view.tsx:68-76 | parsing a cell id `h:m` gives back its hour and minute |
| DailyView.DaySlotIdsDistinct | src/components/scheduler/daily-view.tsx:108-122 | the grid has 48 cells, all ids distinct |
| DailyView.DaySlotIdsMembers | src/components/scheduler/daily-view.tsx:108-122 | `h:m` is a cell exactly when 8 ≤ h < 20 and m is 0, 15, 30 or 45 |
| DailyView.DailyDropOutcome | src/components/scheduler/daily-view.tsx:57-95 | a move is reported exactly when there is a target, the appointment exists and the id parses; it keeps the duration |
| DailyView.DayDropIgnoredAsWritten | src/components/scheduler/daily-view.tsx:57-62 | as written no slot is a registered drop target, so no target is reported and every drop leaves the appointments unchanged |
| DailyView.DayDropOnRegisteredSlot | src/components/scheduler/daily-view.tsx:57-95 | with every slot registered as a drop target, dropping an existing appointment on slot `h:m` moves it to h:m of the same day; every reported target is a slot id |
| DailyView.DailyDropAtSlot | src/components/scheduler/daily-view.tsx:78-80 | a drop reported with target id `h:m` starts the appointment that same day at h:m:00.000 |
| DailyView.DayBlockMatchesWeek | src/components/scheduler/daily-view.tsx:132-143 | the day view puts a block at the week view's top (80 px per hour after 08:00); its height is the raw duration, without the week view's 20 px minimum |
| DailyView.DailyViewState.constructor | src/components/scheduler/daily-view.tsx:20 | nothing is being dragged at first |
| DailyView.DailyViewState.HandleDragStart | src/components/scheduler/daily-view.tsx:52-54 | the dragged id is recorded |
| DailyView.DailyViewState.HandleDragEnd | src/components/scheduler/daily-view.tsx:57-95 | the drag is cleared and the reported move is the drop function's result |
| Scheduler.FilteredCount | src/components/scheduler/appointment-scheduler.tsx:25-37 | the filter keeps exactly the appointments in view, each as often as before |
| Scheduler.DailyFilter | src/components/scheduler/appointment-scheduler.tsx:26-27 | the day view shows exactly the appointments whose start has the current date's year, month and day of month, that is, those starting between its midnight and the next |
| Calendar.SameDayFields | src/components/scheduler/appointment-scheduler.tsx:26-27 | two times are on the same day exactly when their year, month and day of month all agree |
| Scheduler.WeeklyFilter | src/components/scheduler/appointment-scheduler.tsx:28-31 | the week view shows the appointments of the current Monday-first week, i.e. those on one of its seven day columns |
| Scheduler.MonthlyFilter | src/components/scheduler/appointment-scheduler.tsx:32-35 | the month view shows the appointments of the current month (both disjuncts agree) |
| Scheduler.NextPrevious | src/components/scheduler/appointment-scheduler.tsx:40-54 | in the day and week views, next and previous undo each other; next lands 1 or 7 days later at the same time of day |
| Scheduler.NextMonthFirst | src/components/scheduler/appointment-scheduler.tsx:52 | "next" in the month view goes to midnight of the 1st of the next month, December rolling over, in year y read as 1900 + y when 0 ≤ y ≤ 99 |
| Scheduler.PreviousMonthFirst | src/components/scheduler/appointment-scheduler.tsx:44 | "previous" in the month view goes to midnight of the 1st of the previous month, January rolling back, with the same reading of years 0 to 99 |
| Scheduler.MonthlyNext | src/components/scheduler/appointment-scheduler.tsx:48-53 | "next" from any date lands on the 1st of the following month, of the year the constructor reads (1900 + y for years 0 to 99) |
| Scheduler.MonthlyPrevious | src/components/scheduler/appointment-scheduler.tsx:40-45 | "previous" from any date lands on the 1st of the preceding month, of the year the constructor reads |
| Scheduler.MonthlyNextTwoDigitYear | src/components/scheduler/appointment-scheduler.tsx:52 | "next" from December of year 99 lands on 1 January 2000, not of year 100 |
| Scheduler.MonthlyNextPreviousYear | src/components/scheduler/appointment-scheduler.tsx:40-54 | next then previous lands on the 1st of the original month, 1900 years later for a date in years 0 to 99, and on December 1899 from December of year -1 |
| Scheduler.MonthlyNextPrevious | src/components/scheduler/appointment-scheduler.tsx:40-54 | outside years 0 to 99 (and December of year -1), next then previous in the month view lands on the start of the original month |
| Scheduler.SaveUpdates | src/components/scheduler/appointment-scheduler.tsx:68-70 | saving with an id replaces every appointment with that id and changes nothing else |
| Scheduler.SaveAppends | src/components/scheduler/appointment-scheduler.tsx:71-74 | saving without an id appends one copy whose id is the clock's decimal digits, which read back as the clock's value |
| Scheduler.DeleteRemoves | src/components/scheduler/appointment-scheduler.tsx:79-82 | deleting leaves no appointment with the id and keeps every other one as often as before |
| Scheduler.DeleteOrder | src/components/scheduler/appointment-scheduler.tsx:80 | deleting keeps the order of the rest |
| Scheduler.MoveOnlyTimes | src/components/scheduler/appointment-scheduler.tsx:84-93 | a move changes only start and end, and only of the appointments with that id |
| Scheduler.AppointmentScheduler.constructor | src/components/scheduler/appointment-scheduler.tsx:18-22 | starts on today, in the day view, with the initial list and the dialog closed |
| Scheduler.AppointmentScheduler.SetView | src/components/scheduler/appointment-scheduler.tsx:124 | switching tabs changes only the view |
| Scheduler.AppointmentScheduler.HandlePrevious | src/components/scheduler/appointment-scheduler.tsx:40-46 | the date moves back by the view's step (a month through the constructor, with its reading of years 0 to 99); nothing else changes |
| Scheduler.AppointmentScheduler.HandleNext | src/components/scheduler/appointment-scheduler.tsx:48-54 | the date moves forward by the view's step (a month through the constructor, with its reading of years 0 to 99); nothing else changes |
| Scheduler.AppointmentScheduler.HandleToday | src/components/scheduler/appointment-scheduler.tsx:56-58 | the date becomes now |
| Scheduler.AppointmentScheduler.HandleOpenModal | src/components/scheduler/appointment-scheduler.tsx:61-64 | the dialog opens on the given appointment or none |
| Scheduler.AppointmentScheduler.CloseModal | src/components/scheduler/appointment-scheduler.tsx:143 | the dialog closes; the selection stays |
| Scheduler.AppointmentScheduler.HandleSaveAppointment | src/components/scheduler/appointment-scheduler.tsx:66-77 | the list becomes the saved list and the dialog closes |
| Scheduler.AppointmentScheduler.HandleDeleteAppointment | src/components/scheduler/appointment-scheduler.tsx:79-82 | the list loses the id and the dialog closes |
| Scheduler.AppointmentScheduler.HandleMoveAppointment | src/components/scheduler/appointment-scheduler.tsx:84-93 | the list becomes the moved list; nothing else changes |
| MonthlyView.GridStartMonday | src/components/scheduler/monthly-view.tsx:17-18 | the grid starts at a Monday midnight 0 to 6 days before the 1st, six exactly when the 1st is a Sunday |
| MonthlyView.GridDaysConsecutive | src/components/scheduler/monthly-view.tsx:21-24 | the grid is 42 consecutive midnights |
| MonthlyView.CurrentMonthCells | src/components/scheduler/monthly-view.tsx:51-53 | a cell is flagged as the current month exactly in the run from the 1st to the month's last day |
| MonthlyView.MonthInGrid | src/components/scheduler/monthly-view.tsx:17-24 | every day of the month has a flagged cell in the grid |
| MonthlyView.AppointmentsForDayCount | src/components/scheduler/monthly-view.tsx:26-28 | a cell lists exactly the appointments starting that day, each as often as in the input |
| MonthlyView.AppointmentsForDayOrder | src/components/scheduler/monthly-view.tsx:26-28 | a cell lists the appointments in input order |
| MonthlyView.DayClickBlank | src/components/scheduler/monthly-view.tsx:30-41 | clicking a cell proposes a blank appointment in the default colour from 09:00 to 10:00 that day; the cell's day object is left at 10:00 |
| AppointmentModal.ResetForm | src/components/scheduler/appointment-modal.tsx:34-54 | opening on an appointment shows exactly it; opening blank gives empty fields, default colour, 09:00:00.000–10:00:00.000 today |
| AppointmentModal.WithText | src/components/scheduler/appointment-modal.tsx:56-59 | a text input changes only its own field |
| AppointmentModal.TimeTextShape | src/components/scheduler/appointment-modal.tsx:106-108 | the time input text is `HH:MM`: two digits, a colon, two digits |
| AppointmentModal.TimeTextRoundTrip | src/components/scheduler/appointment-modal.tsx:63 | splitting `HH:MM` on ':' and applying `Number` gives back the hour and minute |
| AppointmentModal.TimeChangeEffect | src/components/scheduler/appointment-modal.tsx:61-74 | only the named endpoint changes; it stays valid exactly when both parts parse; in range it keeps its day, seconds and ms and takes the new hour and minute |
| AppointmentModal.TimeInputRoundTrip | src/components/scheduler/appointment-modal.tsx:61-108 | typing back the time the input shows leaves the form unchanged |
| AppointmentModal.DateTextRoundTrip | src/components/scheduler/appointment-modal.tsx:78-111 | parsing `yyyy-MM-dd` gives back the era year, month and day |
| AppointmentModal.SetCalendarDateEffect | src/components/scheduler/appointment-modal.tsx:81-85 | `setFullYear` on a copy: valid when all parts parse, on that date with the time of day kept (midnight for an Invalid Date) |
| AppointmentModal.DateChangeEffect | src/components/scheduler/appointment-modal.tsx:76-93 | a date change touches only start and end, sets both to the same date and keeps their times of day |
| AppointmentModal.InputValues | src/components/scheduler/appointment-modal.tsx:106-111 | the date input renders exactly when the instant is valid; a valid instant's time text reads back as its hour and minute, an Invalid Date shows `NaN:NaN`, which reads back as no hour and no minute |
| AppointmentModal.ClearedDateThrows | src/components/scheduler/appointment-modal.tsx:76-91 | clearing the date input makes start and end Invalid Dates, after which rendering the date input throws |
| AppointmentModal.DateInputRoundTrip | src/components/scheduler/appointment-modal.tsx:76-111 | typing back the date the input shows keeps start, and moves end onto start's day at its own time |
| AppointmentModal.AppointmentModalState.constructor | src/components/scheduler/appointment-modal.tsx:24-32 | the initial form: blank fields, default colour, both instants now |
| AppointmentModal.AppointmentModalState.ResetEffect | src/components/scheduler/appointment-modal.tsx:34-54 | the reset effect replaces the form with the reset form |
| AppointmentModal.AppointmentModalState.HandleChange | src/components/scheduler/appointment-modal.tsx:56-59 | the form takes the text change |
| AppointmentModal.AppointmentModalState.HandleTimeChange | src/components/scheduler/appointment-modal.tsx:61-74 | the form takes the time change |
| AppointmentModal.AppointmentModalState.HandleDateChange | src/components/scheduler/appointment-modal.tsx:76-93 | the form takes the date change |
| AppointmentModal.AppointmentModalState.HandleSubmit | src/components/scheduler/appointment-modal.tsx:95-98 | the current form is handed to the save callback |
| AppointmentModal.AppointmentModalState.HandleDelete | src/components/scheduler/appointment-modal.tsx:100-104 | a delete is requested exactly for an appointment with a non-empty id, with that id |
| Diet.MealTotalsSums | src/app/diet/page.tsx:186-198 | a meal's totals are the field-wise sums of its foods' macros; no foods give zeros |
| Diet.MealTotalsAppend | src/app/diet/page.tsx:186-198 | the totals of two lists of foods add up |
| Diet.DailyTotalsSums | src/app/diet/page.tsx:200-213 | the daily totals are the field-wise sums of the meals' totals |
| Diet.DailyTotalsAllFoods | src/app/diet/page.tsx:200-213 | the daily totals equal the totals of all foods of all meals together |
| Diet.MealsUpdated | src/app/diet/page.tsx:91-93 | the meals with the id get the field changed; the others are unchanged |
| Diet.MealsWithoutEffect | src/app/diet/page.tsx:95-97 | removing leaves no meal with the id and keeps the other meals as often as before |
| Diet.MealsWithoutOrder | src/app/diet/page.tsx:95-97 | removal distributes over concatenation and keeps or drops each meal on its own, so the remaining meals stay in their order |
| Diet.UpsertEffect | src/app/diet/page.tsx:120-131 | a food with a known id replaces every food with that id; otherwise it is appended |
| Diet.FoodSaved | src/app/diet/page.tsx:116-135 | the upsert happens in the meals with the editing meal id only |
| Diet.FoodRemoved | src/app/diet/page.tsx:151-155 | the food is filtered out of the meals with that id only |
| Diet.FoodRemovedEffect | src/app/diet/page.tsx:151-155 | no food with that id is left in those meals; the other foods keep their counts |
| Diet.FoodsWithoutOrder | src/app/diet/page.tsx:151-155 | removal from a meal's foods distributes over concatenation, so the remaining foods stay in their order |
| Diet.FoodToEditEffect | src/app/diet/page.tsx:141-149 | editing finds something exactly when the first meal with the id holds a food with that id, and then holds that meal id and the first such food of that meal |
| Diet.NutritionApp.constructor | src/app/diet/page.tsx:50-72 | blank patient, one breakfast meal at 08:00, empty notes, nothing being edited, no saved plans |
| Diet.NutritionApp.HandlePatientChange | src/app/diet/page.tsx:77-79 | only the patient field changes |
| Diet.NutritionApp.AddMeal | src/app/diet/page.tsx:81-89 | one meal `Refeição n+1` with no time and no foods is appended |
| Diet.NutritionApp.UpdateMeal | src/app/diet/page.tsx:91-93 | the meals become the updated meals |
| Diet.NutritionApp.RemoveMeal | src/app/diet/page.tsx:95-97 | the meals with the id are removed |
| Diet.NutritionApp.AddFood | src/app/diet/page.tsx:99-111 | the side form opens on a new zero-macro food for that meal |
| Diet.NutritionApp.SaveFood | src/app/diet/page.tsx:113-139 | without a food or meal id nothing happens; otherwise the food is upserted and the side form closes |
| Diet.NutritionApp.EditFood | src/app/diet/page.tsx:141-149 | the side form opens on the found food, or stays as it was |
| Diet.NutritionApp.RemoveFood | src/app/diet/page.tsx:151-155 | the meals become the meals without that food |
| Diet.NutritionApp.UpdateEditingFood | src/app/diet/page.tsx:157-164 | with a food open, only the given field of it changes; otherwise nothing |
| Diet.NutritionApp.CancelEditing | src/app/diet/page.tsx:490 | the side form closes |
| Diet.NutritionApp.SetNotes | src/app/diet/page.tsx:411 | only the notes change |
| Diet.NutritionApp.SavePlan | src/app/diet/page.tsx:166-177 | one plan holding the current patient, meals and notes is appended |
| Diet.NutritionApp.LoadPlan | src/app/diet/page.tsx:179-183 | patient, meals and notes become the plan's |
| Diet.NutritionApp.SelectPlan | src/app/diet/page.tsx:228-231 | the first saved plan with the chosen id is loaded; with none nothing changes |
| FormRules.EmailRegexIff | src/app/auth/signin/page.tsx:42 | the e-mail pattern matches exactly when there is no whitespace, a non-empty part before the first `@`, no second `@`, and a `.` in the domain with a character on each side |
| FormRules.EmailHasOneAt | src/app/auth/signin/page.tsx:42 | an accepted address holds exactly one `@` |
| FormRules.ValidateEmail | src/app/auth/signin/page.tsx:37-48 | "Email é obrigatório" exactly for "", "Informe um email válido" exactly for a non-empty mismatch, "" exactly when the pattern matches |
| FormRules.ValidateSignInPassword | src/app/auth/signin/page.tsx:50-60 | required for "", the length error for 1 to 7 characters, "" from 8 on |
| FormRules.RunScanDecides | src/app/auth/signup/page.tsx:30 | a one-pass run counter decides `/.{8,}/`: eight consecutive characters that are not line terminators |
| FormRules.FailedRequirements | src/app/auth/signup/page.tsx:42 | the failed requirements are exactly the listed ones the password does not meet |
| FormRules.NoneFailedIffStrong | src/app/auth/signup/page.tsx:29-44 | no requirement fails exactly when the password meets all five rules |
| FormRules.RequirementListsComplete | src/app/auth/reset-password/page.tsx:39-45 | both forms list the same five rules in the same order |
| FormRules.Checklist | src/app/auth/signup/page.tsx:158-160 | one check mark per requirement; all are ticked exactly on a strong password |
| FormRules.ValidateSignUpPassword | src/app/auth/signup/page.tsx:37-49 | required for "", "Senha não atende aos requisitos" for a non-empty weak password, "" exactly for a strong one |
| FormRules.ValidateResetPassword | src/app/auth/reset-password/page.tsx:47-59 | the same precedence with "A senha não atende aos requisitos" |
| FormRules.StrongPasswordSignsIn | src/app/auth/signin/page.tsx:55 | a password the sign-up form accepts passes the sign-in length check |
| FormRules.ValidateConfirmPassword | src/app/auth/reset-password/page.tsx:61-71 | missing confirmation first, then mismatch; "" exactly when it is present and equal |
| FormRules.ValidateName | src/app/auth/signup/page.tsx:64-70 | an error exactly for the empty name |
| SignIn.WithValue | src/app/auth/signin/page.tsx:64 | a change sets the named field and no other |
| SignIn.WithoutError | src/app/auth/signin/page.tsx:65 | a change clears the named field's error and no other |
| SignIn.SignInForm.constructor | src/app/auth/signin/page.tsx:18-35 | login view, blank fields, no errors, no countdown |
| SignIn.SignInForm.HandleChange | src/app/auth/signin/page.tsx:62-66 | the field takes the value and loses its error; view and countdown stay |
| SignIn.SignInForm.HandleRememberChange | src/app/auth/signin/page.tsx:68-71 | only the remember flag changes |
| SignIn.SignInForm.HandleSubmit | src/app/auth/signin/page.tsx:73-98 | both errors are recomputed; the credentials are dispatched exactly when the e-mail matches and the password has 8+ characters |
| SignIn.SignInForm.HandleResetSubmit | src/app/auth/signin/page.tsx:100-123 | the reset address is validated; a valid one is sent, the sent panel is shown and the 45 s delay starts; otherwise the view stays |
| SignIn.SignInForm.GoToForgotPassword | src/app/auth/signin/page.tsx:138-144 | shows the forgot-password view, copying a non-empty login address into the reset field |
| SignIn.SignInForm.GoToLogin | src/app/auth/signin/page.tsx:146-148 | back to the login view, nothing else changes |
| SignIn.SignInForm.Resend | src/app/auth/signin/page.tsx:322-329 | the reset field is cleared, and the address it held is validated and, if valid, sent again |
| SignUp.WithValue | src/app/auth/signup/page.tsx:74 | a change sets the named field and no other |
| SignUp.WithoutError | src/app/auth/signup/page.tsx:75 | a change clears the named field's error and no other |
| SignUp.Validate | src/app/auth/signup/page.tsx:81-89 | no error at all exactly for a non-empty name, a matching e-mail and a strong password |
| SignUp.SignUpForm.constructor | src/app/auth/signup/page.tsx:17-27 | blank fields, no errors |
| SignUp.SignUpForm.HandleChange | src/app/auth/signup/page.tsx:72-76 | the field takes the value and loses its error |
| SignUp.SignUpForm.PasswordChecklist | src/app/auth/signup/page.tsx:158-160 | five marks, all ticked exactly for a strong password |
| SignUp.SignUpForm.HandleSubmit | src/app/auth/signup/page.tsx:78-101 | all three errors are replaced; the form is dispatched exactly when all are empty |
| ResetPassword.TokenOf | src/app/auth/reset-password/page.tsx:28 | a missing or empty `token` parameter is no token; any other is kept |
| ResetPassword.TokenText | src/app/auth/reset-password/page.tsx:98 | the token sent is the token, or "" without one |
| ResetPassword.WithValue | src/app/auth/reset-password/page.tsx:75 | a change sets the named field and no other |
| ResetPassword.WithoutError | src/app/auth/reset-password/page.tsx:78 | a change clears the named field's error and no other |
| ResetPassword.Validate | src/app/auth/reset-password/page.tsx:85-91 | no error at all exactly for a strong password confirmed by an equal one |
| ResetPassword.PasswordResetForm.constructor | src/app/auth/reset-password/page.tsx:26-37 | the token from the query, blank fields, no errors |
| ResetPassword.PasswordResetForm.HandleChange | src/app/auth/reset-password/page.tsx:73-79 | the field takes the value and loses its error |
| ResetPassword.PasswordResetForm.PasswordChecklist | src/app/auth/reset-password/page.tsx:161-163 | five marks, all ticked exactly for a strong password |
| ResetPassword.PasswordResetForm.HandleSubmit | src/app/auth/reset-password/page.tsx:81-108 | both errors are replaced; the payload (token or "", password, newPassword equal to it) is sent exactly when both are empty |
| Middleware.ProtectedExactly | src/middleware.ts:5-11 | only "/user" and "/home" are protected and only "/auth/signin", "/auth/signup" and "/" are public; sub-paths are neither |
| Middleware.RouteDecision | src/middleware.ts:16-26 | the redirect to sign-in happens exactly on a protected path without a user; to /home exactly on sign-in/sign-up with a user; there is no other redirect |
| Middleware.GuardThrows | src/middleware.ts:13-26 | the middleware throws exactly when a session cookie is present but does not parse; otherwise only the listed paths can be redirected |
| Middleware.RootNeverRedirects | src/middleware.ts:22-26 | "/" passes through for every session that decodes (no cookie, or one that parses), and throws on a malformed cookie |
| Middleware.UnlistedPassesThrough | src/middleware.ts:10-26 | a path in neither list passes through for every session that decodes, and throws on a malformed cookie |
| Middleware.RedirectSettles | src/middleware.ts:16-24 | a redirect's target is not redirected again for the same session |
| Navbar.GetInitials | src/components/structure/navbar.tsx:13-20 | "U" without a name; otherwise at most two characters, each taken from the name and none a space |
| Navbar.InitialsOfFullName | src/components/structure/navbar.tsx:18-19 | "First Last" gives the two initials |
| Navbar.InitialsIgnoreLaterWords | src/components/structure/navbar.tsx:18-19 | words after the second do not count |
| Navbar.InitialOfSingleName | src/components/structure/navbar.tsx:18-19 | a single word gives one initial |
| FaqAccordion.Toggled | src/components/faq-accordion.tsx:19-21 | clicking opens the item exactly when it was not the open one, and closes everything when it was |
| FaqAccordion.ToggleTwice | src/components/faq-accordion.tsx:19-21 | from closed, or from that item open, two clicks restore the state |
| FaqAccordion.ToggleClosesOthers | src/components/faq-accordion.tsx:19-21 | after a click no other item is open |
| FaqAccordion.FaqAccordionState.constructor | src/components/faq-accordion.tsx:17 | everything starts closed |
| FaqAccordion.FaqAccordionState.ToggleItem | src/components/faq-accordion.tsx:19-21 | the open index toggles, it stays one of the items, and at most the clicked item is open |

## Left out

- Timers: the sign-in countdown's `setTimeout`/`setInterval` ticking is not modelled. `ResendDelay` is set but never counts down, and `Resend` is callable once `countDown` is 0 or less.
- Browser and network effects are not modelled:
  - the sign-in "remember" flag's `localStorage` write and read-back;
  - `alert`;
  - router navigation after sign-in and on logout;
  - the server actions (`signin`, `signup`, `sendResetPassword`, `resetPassword`), their `pending` state and their success screens.
- Requests are returned as values (the credentials, the reset address, the sign-up form, the reset payload) instead of being dispatched.
- The clock is a parameter: `now` for "today" and for the ids `Date.now().toString()`, and `createdAt` for `toISOString()`.
- The drag-and-drop library is not modelled: sensors, activation constraints, the drag overlay and drop animation. A drop arrives as the active id and the optional target id, and a target id is only reported for an element registered as droppable (`Appointments.OverTarget`). The grid cells are not registered (see Findings), so the drop operations are stated for a reported target id.
- Scheduler.SaveAppends: the `Date.now()` id may equal an id already in the list; nothing in the source prevents it, and the model promises no distinct id.
- The dialog's render after an Invalid Date is modelled up to the `RangeError` (`AppointmentModal.DateInputValue`); the React error handling that follows is left out.
- JSX rendering is only modelled for the geometry, the drawn set, the grid cells and the check marks. Locale formatting (`ptBR` weekday and month names, the header's `dateRangeText`) is left out.
- Time zones and daylight-saving time are left out: local time is treated as a fixed offset.
- The `Date` range limit of ±8.64e15 ms (TimeClip) is not modelled; every integer is a valid instant.
- A form submitted with an Invalid Date start or end is not passed to the scheduler: `ToAppointment` gives `None`.
- `Text.JsNumber` handles plain decimal integers with surrounding whitespace only; exponents, fractions and hexadecimal are left out. Inputs of type `time` and `date` produce only such integers.
- The diet's macros are exact `real`s, so floating-point rounding of the sums is left out. The numeric inputs' `Number(e.target.value)` conversion is left out; `FoodUpdate` carries the converted value.
- The diet's `isPatientInfoOpen` and `isEditingPatient` toggles are left out: they only show or hide panels.
- `MonthlyView.GridDays` builds `eachDayOfInterval` from `addDays`, which is the same thing for consecutive midnights.
- AppointmentModal.DateInputRoundTrip: stated for years from 1 on only. The `yyyy` format prints the year of the era, so earlier years do not come back; `AppointmentModal.DateTextRoundTrip` states what is parsed instead.
- FormRules.ValidateSignInPassword: counts Unicode scalar values, where JavaScript `length` counts UTF-16 code units. Characters outside the Basic Multilingual Plane therefore count once rather than twice. The same holds for `.` in `FormRules.RunScanDecides`.
- Middleware.RouteDecision: the session cookie's decoding (base64 JSON, src/lib/session.ts:3) is abstracted to three outcomes: no cookie, a cookie whose `JSON.parse` throws (the exception propagates out of the middleware, modelled by `Middleware.Guard` as `Thrown`), or a parsed payload with an optional `userId` string that is truthy when non-empty. Other JSON values of `userId`, and which byte strings fail to parse, are not modelled.
- WeeklyLayout.PackColumnsActive: stated for appointments that end after they start. With zero-length appointments first fit can open more columns than are ever running at once (`WeeklyLayout.ZeroLengthExtraColumn`); such a block is still drawn 20 px high (src/components/scheduler/weekly-view.tsx:272).
- Middleware.Guard: the `console.log` of the route flags and user id (src/middleware.ts:20) is output only and is left out.
- The route guard's `matcher` (which paths the guard runs on at all) is left out.
- Navbar.GetInitials: the name comes from the decoded token payload, which is not modelled. The logout handler is left out. Characters are Unicode scalar values: JavaScript's `charAt(0)` (src/components/structure/navbar.tsx:19) takes the first UTF-16 code unit, so for a word starting outside the Basic Multilingual Plane the page shows a lone surrogate where `Navbar.CharAt0` gives the whole character.
- The FAQ accordion's animation is left out.

## Findings

| source | as written | input that shows it | evidently intended | confidence | as-written member | corrected member |
|---|---|---|---|---|---|---|
| src/components/scheduler/weekly-view.tsx:244-249 | the quarter-hour cells are plain `div`s with an `id`; none is registered with `useDroppable`, so `over` is always null and `handleDragEnd` returns at line 72 | drag an existing appointment onto cell `0-8-0` | each cell wrapped in the `Droppable` helper of src/components/scheduler/dnd-kit/droppable.tsx, so the drop moves the appointment to Monday 08:00 | not executed | WeeklyView.DropIgnoredAsWritten | WeeklyView.DropOnRegisteredSlot |
| src/components/scheduler/daily-view.tsx:112-119 | the same for the day view's slots; `handleDragEnd` returns at line 62 | drag an existing appointment onto slot `8:0` | each slot registered as a drop target, so the drop moves the appointment to 08:00 that day | not executed | DailyView.DayDropIgnoredAsWritten | DailyView.DayDropOnRegisteredSlot |
