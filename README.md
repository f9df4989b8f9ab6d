# Gym management: verified model of the scheduling and member logic

This project models, in Dafny, the deterministic core of a gym management system. The system has a Django REST backend (members, memberships, schedules, posts) and a React client. The model covers:

- the month calendar the client draws: its 42-cell grid built with JavaScript `Date` rollover, how schedules are placed in the cells, the cell flags and the month navigation;
- the monthly summary: grouping by date, the sorted date list, the per-day stable sort by start time, and the type counts and labels;
- the schedule page, the schedule form, the member list and the post composer, each as a class whose methods update the component state the way the handlers and effects do;
- the client service rules: error messages, image URLs, the auth-header and 401 interceptors, and the multipart body of a new post;
- on the backend:
  - the schedule record's defaults, duration, participant count, registration check and ordering;
  - the schedule list filters and the `today`, `upcoming` and `join` actions;
  - the `is_active` filter;
  - `Member.age` and `Member.__str__`;
  - the admin content and image previews.

Anything that reads the clock (`new Date()`, `date.today()`) takes the current date or time as a parameter. A server call that can fail takes its outcome as a parameter: `None` for success, or the error the request was rejected with.

Modules follow the source files:

| module | models |
|---|---|
| `Gregorian` | the proleptic Gregorian calendar that JavaScript's `Date` and Python's `date` share. Dates are (year, 0-based month, day). It has days in a month, the carrying of out-of-range months and days (`Normalize`), day numbers counted from 1970-01-01, and the weekday. |
| `Text` | decimal rendering and parsing (`String(n)`, `parseInt`, Python `int()`), `padStart`, `split`, `trim`, and the lexicographic order used for `sort()` and `localeCompare`. |
| `Types` | the enum unions and the client's schedule record. |
| `DateUtils` | `utils/dateUtils.ts`. |
| `CalendarView` | `Calendar.tsx`. |
| `MonthlySchedule` | `MonthlySchedule.tsx`. |
| `SchedulePage` | `SchedulePage.tsx`. |
| `ScheduleForm` | `ScheduleForm.tsx`. |
| `ApiClient` | `services/api.ts`. |
| `ScheduleModel` | `schedules/models.py`. |
| `ApiViews` | `api/views.py`. |
| `MemberModel` | `members/models.py`. |
| `PostAdmin` | `posts/admin.py`. |
| `MemberList` | `MemberList.tsx`. |
| `MemberDetail` | `MemberDetail.tsx`. |

## Model

| member | source | states |
|---|---|---|
| Gregorian.DaysInMonth | frontend/src/utils/dateUtils.ts:66-68 | a month has 28..31 days, and February has 29 exactly in leap years |
| Gregorian.CarryMonth | frontend/src/utils/dateUtils.ts:65-66 | an out-of-range month is carried into the year and keeps the absolute month index |
| Gregorian.NextMonth | frontend/src/utils/dateUtils.ts:66 | the month after (y, m) has month index one higher and a month in 0..11 |
| Gregorian.PrevMonth | frontend/src/utils/dateUtils.ts:73 | the month before (y, m) has month index one lower and a month in 0..11 |
| Gregorian.MonthIndexUnique | frontend/src/utils/dateUtils.ts:65-66 | a month index determines its (year, month) pair |
| Gregorian.CarryNext | frontend/src/utils/dateUtils.ts:66 | carrying month m + 1 is the month after carrying m |
| Gregorian.CarryPrev | frontend/src/utils/dateUtils.ts:73 | carrying month m - 1 is the month before carrying m |
| Gregorian.Roll | frontend/src/utils/dateUtils.ts:65-66 | moving an out-of-range day into neighbouring months always gives a real date |
| Gregorian.Normalize | frontend/src/utils/dateUtils.ts:65-66 | `new Date(y, m, d)` always denotes a real date |
| Gregorian.CarryInRange | frontend/src/utils/dateUtils.ts:65 | a month already in 0..11 is not carried |
| Gregorian.NormalizeValid | frontend/src/utils/dateUtils.ts:65 | normalizing a real date leaves it unchanged |
| Gregorian.Weekday | frontend/src/utils/dateUtils.ts:67 | `getDay()` lies in 0..6 |
| Gregorian.LeapYearsStep | frontend/src/utils/dateUtils.ts:66-68 | the leap-year count grows by one exactly past a leap year |
| Gregorian.YearStep | frontend/src/utils/dateUtils.ts:66-68 | the next year starts a year's length later |
| Gregorian.MonthsOfYear | frontend/src/utils/dateUtils.ts:66-68 | the twelve month lengths add up to the year's length |
| Gregorian.FirstOfNextMonth | frontend/src/utils/dateUtils.ts:66 | the 1st of the next month is this month's length of days after this month's 1st |
| Gregorian.RollDayNumber | frontend/src/utils/dateUtils.ts:65-66 | rolling an out-of-range day keeps its day number, so no day is skipped or repeated |
| Gregorian.NormalizeDayNumber | frontend/src/utils/dateUtils.ts:65-66 | `new Date(y, m, d)` is d - 1 days after the 1st of the carried month |
| Gregorian.DayZero | frontend/src/utils/dateUtils.ts:66 | day 0 of month m + 1 is the last day of month m |
| Gregorian.NormalizeInMonth | frontend/src/utils/dateUtils.ts:65-66 | a day the carried month has is not moved |
| Gregorian.DaysBeforeMonthGrows | frontend/src/utils/dateUtils.ts:66-68 | later months of a year start after earlier months end |
| Gregorian.DaysBeforeYearGrows | frontend/src/utils/dateUtils.ts:66-68 | later years start after earlier years end |
| Gregorian.DayNumberWithinYear | frontend/src/utils/dateUtils.ts:66-68 | a real date's day number lies inside its year |
| Gregorian.DayNumberOrder | backend/api/views.py:181-185 | day numbers order real dates as (year, month, day) does, and equal day numbers mean equal dates |
| Gregorian.DayNumberBefore | backend/api/views.py:181-185 | an earlier real date has a smaller day number |
| Gregorian.WeekdayOfNextDay | frontend/src/utils/dateUtils.ts:67 | the day after a date falls on the next weekday |
| Gregorian.NormalizeShift | backend/api/views.py:181 | adding n days moves the day number by exactly n |
| Gregorian.EpochIsThursday | frontend/src/utils/dateUtils.ts:67 | 1970-01-01 has day number 0 and was a Thursday |
| Text.NatToDecimal | frontend/src/utils/dateUtils.ts:52-53 | `String(n)` is a non-empty digit string, one digit long exactly below 10 |
| Text.DecimalRoundTrip | frontend/src/utils/dateUtils.ts:52-53 | reading the rendered digits back gives the number |
| Text.DecimalWidth | frontend/src/utils/dateUtils.ts:52-53 | a number below 10^k takes at most k digits |
| Text.DecimalWidthAtLeast | frontend/src/utils/dateUtils.ts:52-53 | a number of at least 10^(k-1) takes at least k digits |
| Text.DecimalBelow | frontend/src/utils/dateUtils.ts:52-53 | k digits read as a number below 10^k |
| Text.IntToDecimal | frontend/src/services/api.ts:189 | a number's text is non-empty and starts with '-' exactly when it is negative |
| Text.PadStart | frontend/src/utils/dateUtils.ts:52-53 | `padStart` widens to the width, never truncates, keeps the text at the end and fills only the front |
| Text.LeadingZeros | frontend/src/utils/dateUtils.ts:52-53 | leading zeros do not change a numeral's value |
| Text.PadDigitsValue | frontend/src/utils/dateUtils.ts:52-53 | zero padding keeps a numeral's digits and value |
| Text.Pad2Digits | frontend/src/utils/dateUtils.ts:52-53 | below 100 the padded field is exactly two digits that read back as the number |
| Text.Pad2Wide | frontend/src/components/schedule/ScheduleForm.tsx:67 | from 100 on, padding leaves the decimal text as it is |
| Text.Split | frontend/src/utils/dateUtils.ts:13 | `split` always gives at least one field |
| Text.SplitJoin | frontend/src/utils/dateUtils.ts:13 | split fields never contain the separator, and joining them with it gives the input back |
| Text.SplitNoSeparator | frontend/src/utils/dateUtils.ts:13 | a string without the separator is one field |
| Text.SplitAfterField | frontend/src/utils/dateUtils.ts:13 | a separator-free prefix followed by the separator is the first field |
| Text.SplitAppendField | frontend/src/utils/dateUtils.ts:13 | a separator-free tail after the separator is the last field |
| Text.SplitHasSecondField | frontend/src/utils/dateUtils.ts:13-14 | there is a second field exactly when the separator occurs |
| Text.LexLessIrreflexive | frontend/src/components/schedule/MonthlySchedule.tsx:34 | no string sorts before itself |
| Text.LexLessTransitive | frontend/src/components/schedule/MonthlySchedule.tsx:34 | the string order is transitive |
| Text.LexLessTotal | frontend/src/components/schedule/MonthlySchedule.tsx:34 | any two different strings are ordered one way |
| Text.LexLessAsymmetric | frontend/src/components/schedule/MonthlySchedule.tsx:88-90 | two strings are never ordered both ways |
| Text.TrimStart | frontend/src/components/members/MemberDetail.tsx:65 | leading trimming removes exactly a maximal run of whitespace |
| Text.TrimEnd | frontend/src/components/members/MemberDetail.tsx:65 | trailing trimming removes exactly a maximal run of whitespace |
| Text.TrimEmptyIff | frontend/src/components/members/MemberDetail.tsx:65 | `trim()` is empty exactly when every character is whitespace |
| Text.DigitsUntrimmed | backend/api/views.py:148 | a digit string has nothing to trim at either end |
| Text.RadixPrefix | frontend/src/components/schedule/ScheduleForm.tsx:67 | the longest run of digits of the radix at the front of the text |
| Text.ParseIntOfNumeral | frontend/src/components/schedule/ScheduleForm.tsx:67 | `parseInt` reads a leading decimal numeral and stops at the first non-digit |
| Text.ParseIntOfDigits | frontend/src/components/schedule/ScheduleForm.tsx:94 | a whole digit string is read as its value |
| Text.ParseIntOfDecimal | frontend/src/components/members/MemberList.tsx:57 | `parseInt` reads back what `String(n)` wrote |
| Text.PyIntOfDigits | backend/api/views.py:148 | Python's `int()` accepts a digit string as its value |
| Text.PyIntOfDecimal | backend/api/views.py:148 | Python's `int()` reads back what `str()` wrote |
| Text.PyInt | backend/api/views.py:148 | `int()`: leading and trailing whitespace skipped, an optional sign, then decimal digits, else a ValueError (None); its meaning is proved in `PyIntOfDigits` and `PyIntOfDecimal` |
| Text.ParseInt | frontend/src/components/schedule/ScheduleForm.tsx:94 | `parseInt`: leading whitespace skipped, an optional sign, the longest run of decimal digits (hexadecimal after `0x`), NaN without one; its meaning is proved in `ParseIntOfNumeral`, `ParseIntOfDigits` and `ParseIntOfDecimal` |
| Text.Trim | frontend/src/components/members/MemberDetail.tsx:65 | `trim()`: both whitespace ends removed; its meaning is proved in `TrimStart`, `TrimEnd` and `TrimEmptyIff` |
| Text.AsciiLower | backend/api/views.py:65 | lowering the ASCII capitals gives the same text up to ASCII case with no ASCII capital left; non-ASCII characters are kept, which Left out admits |
| Text.AsciiLowerCaseBlind | backend/api/views.py:65 | two strings lower to the same text exactly when they differ only in ASCII case, so `is_active` ignores the case of its value |
| DateUtils.MakeDate | frontend/src/utils/dateUtils.ts:65-66 | `new Date(y, m, d)` with the two-digit-year rule is a real date |
| DateUtils.Viewed | frontend/src/utils/dateUtils.ts:65 | the month the grid shows is in 0..11 |
| DateUtils.LeadingCount | frontend/src/utils/dateUtils.ts:67 | there are 0..6 leading cells |
| DateUtils.MonthLength | frontend/src/utils/dateUtils.ts:66-68 | `daysInMonth` is 28..31 |
| DateUtils.PrevLength | frontend/src/utils/dateUtils.ts:73 | the label the leading cells count up to is 28..31 |
| DateUtils.CalendarGrid | frontend/src/utils/dateUtils.ts:64-112 | the grid always has exactly 42 cells |
| DateUtils.GenerateCalendar | frontend/src/utils/dateUtils.ts:64-112 | the three push loops build exactly the specified grid |
| DateUtils.AddLeadingDays | frontend/src/utils/dateUtils.ts:73-82 | the first loop builds the leading cells of the grid |
| DateUtils.AddMonthDays | frontend/src/utils/dateUtils.ts:85-96 | the second loop extends the leading cells with the month block |
| DateUtils.AddTrailingDays | frontend/src/utils/dateUtils.ts:98-109 | the third loop fills the grid up to 42 cells |
| DateUtils.LeadCell | frontend/src/utils/dateUtils.ts:74-81 | leading cell i has label `prevDays - (firstDayOfWeek - 1 - i)`, dated by carrying that label into the month before, not current and not today |
| DateUtils.MonthCell | frontend/src/utils/dateUtils.ts:88-95 | month-block cell i is day i - lead + 1 of the viewed month, current, and today exactly when that is today's date |
| DateUtils.TrailCell | frontend/src/utils/dateUtils.ts:102-108 | trailing cell i is day i - lead - daysInMonth + 1 of the month after, neither current nor today |
| DateUtils.GridShape | frontend/src/utils/dateUtils.ts:65-109 | leading cells number the weekday of the viewed month's 1st; the month block is that month's length; 5..14 trailing cells; only the month block is current, and no other cell is today |
| DateUtils.FebruaryLengths | frontend/src/utils/dateUtils.ts:66-68 | February 2024 has 29 days and February 2023 has 28 |
| DateUtils.MonthBlock | frontend/src/utils/dateUtils.ts:85-96 | the month block holds days 1..daysInMonth of the viewed month in order, flagged current |
| DateUtils.TrailingBlock | frontend/src/utils/dateUtils.ts:98-109 | trailing cells are labelled 1, 2, … and dated in the next month, with year rollover after December |
| DateUtils.LeadingBlock | frontend/src/utils/dateUtils.ts:73-82 | leading labels end at the length of the month two before the viewed one and are dated by carrying them into the month before |
| DateUtils.TodayAtMostOnce | frontend/src/utils/dateUtils.ts:85-94 | only a month-block cell whose label is today's day can be today, only when today is in the viewed year and month, so at most one cell is |
| DateUtils.TodayMarked | frontend/src/utils/dateUtils.ts:88-94 | when today is in the viewed month, its cell is marked |
| DateUtils.LeadingDatesRepeat | frontend/src/utils/dateUtils.ts:73-82 | as written, the March 2024 grid shows March 1 twice: once as leading label 30, again in the month block |
| DateUtils.February30th2024 | frontend/src/utils/dateUtils.ts:78 | `new Date(2024, 1, 30)` is March 1 |
| DateUtils.March2024Lead | frontend/src/utils/dateUtils.ts:67 | the March 2024 grid has five leading cells |
| DateUtils.March2024Labels | frontend/src/utils/dateUtils.ts:66-73 | the March 2024 leading labels count up to 31, and March has 31 days |
| DateUtils.LastOfPrevious | frontend/src/utils/dateUtils.ts:72 | the last day of the previous month is 28..31 |
| DateUtils.CorrectedGrid | frontend/src/utils/dateUtils.ts:72-82 | the grid with leading labels ending at the previous month's last day has 42 cells |
| DateUtils.CorrectedAgreesAfterLead | frontend/src/utils/dateUtils.ts:85-109 | the corrected grid differs from the written one only in the leading cells |
| DateUtils.PreviousMonthDayNumber | frontend/src/utils/dateUtils.ts:78 | a day carried into the month before lies that many days before the viewed month's 1st |
| DateUtils.ViewedMonthDayNumber | frontend/src/utils/dateUtils.ts:89 | day d of the viewed month is d - 1 days after its 1st |
| DateUtils.NextMonthDayNumber | frontend/src/utils/dateUtils.ts:104 | a day carried into the next month is counted on from the viewed month's 1st |
| DateUtils.CorrectedDayNumbers | frontend/src/utils/dateUtils.ts:72-109 | corrected cell i is i - lead days after the 1st of the viewed month |
| DateUtils.CorrectedDayNumberAt | frontend/src/utils/dateUtils.ts:72-109 | the same, for one cell |
| DateUtils.CorrectedGridConsecutive | frontend/src/utils/dateUtils.ts:72-109 | the corrected grid has no gaps or repeats: each cell is the day after the previous one |
| DateUtils.CorrectedGridColumns | frontend/src/utils/dateUtils.ts:72-109 | every column of the corrected grid holds dates of its weekday (column 0 is Sunday) |
| DateUtils.WeekdayColumns | frontend/src/utils/dateUtils.ts:67 | cells counted from `lead` days before a 1st of weekday `lead` sit in their weekday's column |
| DateUtils.LeadingWeekday | frontend/src/utils/dateUtils.ts:67 | the leading count is the weekday of the viewed month's 1st |
| DateUtils.ElapsedSeconds | frontend/src/utils/dateUtils.ts:31 | the seconds are the millisecond difference divided by 1000 and floored |
| DateUtils.GetTimeAgo | frontend/src/utils/dateUtils.ts:28-47 | the buckets split the line at 60, 3600, 86400 and 604800 (negatives count as just now); shown counts are the floors and lie in 1..59, 1..23 and 1..6 |
| DateUtils.TimeAgoTextShowsCount | frontend/src/utils/dateUtils.ts:33-44 | from a minute to a week the text starts with the count, which `parseInt` reads back |
| DateUtils.TimeAgoText | frontend/src/utils/dateUtils.ts:28-47 | the text of each `getTimeAgo` bucket, the formatted date past a week; `TimeAgoTextShowsCount` proves the shown count reads back |
| DateUtils.FormatTimeKeepsHourMinute | frontend/src/utils/dateUtils.ts:12-15 | an "HH:MM" string is kept as it is |
| DateUtils.FormatTimeDropsSeconds | frontend/src/utils/dateUtils.ts:12-15 | the seconds and anything after them are dropped |
| DateUtils.FormatTimeWithoutColon | frontend/src/utils/dateUtils.ts:12-15 | without a colon the minutes render as `undefined` |
| DateUtils.FormatTimeIdempotent | frontend/src/utils/dateUtils.ts:12-15 | on an input with a colon, formatting twice is formatting once |
| DateUtils.FormatTime | frontend/src/utils/dateUtils.ts:12-15 | `formatTime`: the first two colon fields; its meaning is proved in the four `FormatTime…` lemmas |
| DateUtils.DigitsExclude | frontend/src/utils/dateUtils.ts:54 | a numeral contains no separator character |
| DateUtils.TodayStringFields | frontend/src/utils/dateUtils.ts:49-55 | today's string has three dash fields: the year, then the 1-based month and the day as two digits each, reading back |
| DateUtils.TodayStringSplit | frontend/src/utils/dateUtils.ts:49-55 | splitting today's string at dashes gives back the year text and the two padded fields |
| DateUtils.TodayString | frontend/src/utils/dateUtils.ts:49-55 | `getTodayString`; `TodayStringFields` and `TodayStringSplit` prove its fields read back as the date |
| DateUtils.ThreeFields | frontend/src/utils/dateUtils.ts:54 | three separator-free fields joined by the separator split back into them |
| DateUtils.CurrentTimeStringShape | frontend/src/utils/dateUtils.ts:57-62 | the current time is five characters "HH:MM" whose digit pairs read back as hour and minute |
| DateUtils.ColonSplitsPairs | frontend/src/utils/dateUtils.ts:61 | two 2-character fields joined by a colon sit at positions 0..1 and 3..4 |
| DateUtils.CurrentTimeStringFormatted | frontend/src/utils/dateUtils.ts:57-62 | `formatTime` leaves the current time string unchanged |
| DateUtils.CurrentTimeString | frontend/src/utils/dateUtils.ts:57-62 | `getCurrentTimeString`; `CurrentTimeStringShape` proves it is "HH:MM" reading back as the time |
| CalendarView.DashedFields | frontend/src/components/schedule/Calendar.tsx:29 | fields of widths 4, 2 and 2 joined by dashes sit at positions 0..3, 5..6 and 8..9 |
| CalendarView.DateKeyFields | frontend/src/components/schedule/Calendar.tsx:29 | a date key in years 0..9999 has ten characters whose digit fields read back as the date |
| CalendarView.IsoYearDigits | frontend/src/components/schedule/Calendar.tsx:29 | a year in 0..9999 is written as four digits that read back as the year |
| CalendarView.DateKeyInjective | frontend/src/components/schedule/Calendar.tsx:81-82 | different dates in years 0..9999 have different keys |
| CalendarView.DateKeyIsTodayString | frontend/src/components/schedule/Calendar.tsx:29 | in years 1000..9999 the cell key equals `getTodayString` of the same date |
| CalendarView.DateKey | frontend/src/components/schedule/Calendar.tsx:29 | `toISOString().split('T')[0]` of a local date; `DateKeyFields` and `DateKeyInjective` prove it reads back and tells dates apart |
| CalendarView.SchedulesForDate | frontend/src/components/schedule/Calendar.tsx:28-31 | a cell's schedules are exactly the input schedules with that date key |
| CalendarView.SchedulesForDateConcat | frontend/src/components/schedule/Calendar.tsx:28-31 | selection distributes over concatenation, so input order is kept and nothing is re-sorted |
| CalendarView.SchedulesForDateNone | frontend/src/components/schedule/Calendar.tsx:28-31 | a key no schedule has selects nothing |
| CalendarView.Visible | frontend/src/components/schedule/Calendar.tsx:99 | at most three schedules are drawn, a prefix of the cell's list, all of them when three or fewer |
| CalendarView.VisiblePlusMore | frontend/src/components/schedule/Calendar.tsx:99-114 | the "+N" counter appears exactly above three schedules, N ≥ 1, and drawn + N = the cell's count |
| CalendarView.ScheduleClassOfType | frontend/src/components/schedule/Calendar.tsx:34-41 | each schedule type gets the event class named after its own code |
| CalendarView.ScheduleClass | frontend/src/components/schedule/Calendar.tsx:34-41 | `getScheduleClass`; `ScheduleClassOfType` proves each type gets the class named after its code |
| CalendarView.HandleDateClick | frontend/src/components/schedule/Calendar.tsx:43-48 | a click reports the cell's key exactly when the cell is in the viewed month |
| CalendarView.FlagsFor | frontend/src/components/schedule/Calendar.tsx:80-88 | has-event exactly when some schedule has the cell's key; selected exactly for a current-month cell whose key is selected; other-month exactly off the viewed month; today from the cell |
| CalendarView.AddClassToken | frontend/src/components/schedule/Calendar.tsx:85-88 | appending a class adds exactly one space-separated token when its flag is on |
| CalendarView.DayClassTokens | frontend/src/components/schedule/Calendar.tsx:84-88 | the class attribute's tokens are the base class followed by the present flags, in order |
| CalendarView.DayClasses | frontend/src/components/schedule/Calendar.tsx:84-88 | the day's class attribute; `DayClassTokens` proves its tokens are the base class and the present flags in order |
| CalendarView.SelectedAtMostOnce | frontend/src/components/schedule/Calendar.tsx:81-87 | in a grid of years 0..9999 at most one cell is selected |
| CalendarView.Direction | frontend/src/components/schedule/Calendar.tsx:53-67 | navigation only ever reports -1 or +1, +1 for the next button |
| CalendarView.CalendarFor | frontend/src/components/schedule/Calendar.tsx:23-25 | the drawn grid has 42 cells |
| CalendarView.CalendarForShowsCurrentMonth | frontend/src/components/schedule/Calendar.tsx:23-25 | the current-month cells of the drawn grid are in `currentDate`'s year and month |
| MonthlySchedule.CountType | frontend/src/components/schedule/MonthlySchedule.tsx:19-21 | a type's count is at most the total, and zero exactly when no schedule has that type |
| MonthlySchedule.CountsAddUp | frontend/src/components/schedule/MonthlySchedule.tsx:18-21 | the four type counts add up to the total, so the three shown counts never exceed it |
| MonthlySchedule.TypeLabelsDistinguish | frontend/src/components/schedule/MonthlySchedule.tsx:36-52 | the three named types get distinct labels; any other code shares the '기타' label; classes are named after the code |
| MonthlySchedule.TypeLabel | frontend/src/components/schedule/MonthlySchedule.tsx:36-43 | `getScheduleTypeLabel`; `TypeLabelsDistinguish` proves the three labels differ and the rest share '기타' |
| MonthlySchedule.TypeClass | frontend/src/components/schedule/MonthlySchedule.tsx:45-52 | `getScheduleTypeClass`; `TypeLabelsDistinguish` proves each class is named after its code |
| MonthlySchedule.GroupByDate | frontend/src/components/schedule/MonthlySchedule.tsx:24-31 | the `reduce` loop builds exactly the grouped record |
| MonthlySchedule.GroupedKeys | frontend/src/components/schedule/MonthlySchedule.tsx:24-31 | a date is a key exactly when some schedule falls on it |
| MonthlySchedule.GroupedIsSelection | frontend/src/components/schedule/MonthlySchedule.tsx:24-31 | each group is exactly the selection of its date, in input order |
| MonthlySchedule.GroupedStep | frontend/src/components/schedule/MonthlySchedule.tsx:26-29 | one push keeps each group equal to its date's selection |
| MonthlySchedule.Grouped | frontend/src/components/schedule/MonthlySchedule.tsx:24-31 | the `reduce` result; `GroupedKeys` and `GroupedIsSelection` prove its keys are the used dates and its groups their selections |
| MonthlySchedule.DateKeys | frontend/src/components/schedule/MonthlySchedule.tsx:34 | `Object.keys` lists each date that has schedules, once |
| MonthlySchedule.InsertKey | frontend/src/components/schedule/MonthlySchedule.tsx:34 | inserting a key adds exactly that key |
| MonthlySchedule.InsertKeyIncreasing | frontend/src/components/schedule/MonthlySchedule.tsx:34 | inserting a new key into an increasing list keeps it increasing |
| MonthlySchedule.SortKeys | frontend/src/components/schedule/MonthlySchedule.tsx:34 | `sort()` permutes the keys |
| MonthlySchedule.SortKeysIncreasing | frontend/src/components/schedule/MonthlySchedule.tsx:34 | sorting distinct keys gives a strictly increasing list |
| MonthlySchedule.SortedDatesSpec | frontend/src/components/schedule/MonthlySchedule.tsx:24-34 | the date list is strictly ascending and names exactly the keys of the grouped record |
| MonthlySchedule.SortedDates | frontend/src/components/schedule/MonthlySchedule.tsx:34 | `Object.keys(...).sort()`; `SortedDatesSpec` proves it ascending, duplicate-free and exactly the grouped keys |
| MonthlySchedule.EmptyIffNoSchedules | frontend/src/components/schedule/MonthlySchedule.tsx:82-86 | the empty message shows exactly when there are no schedules |
| MonthlySchedule.SelectionsOfNone | frontend/src/components/schedule/MonthlySchedule.tsx:87-90 | no schedules select nothing under any keys |
| MonthlySchedule.SelectionsStep | frontend/src/components/schedule/MonthlySchedule.tsx:87-90 | one more schedule appears once among the selections when its date is a key, and not at all otherwise |
| MonthlySchedule.SelectionsPartition | frontend/src/components/schedule/MonthlySchedule.tsx:87-90 | over distinct keys covering every date, the selections are a permutation of the schedules |
| MonthlySchedule.GroupsPartition | frontend/src/components/schedule/MonthlySchedule.tsx:24-34 | the listed days together show every schedule exactly once |
| MonthlySchedule.FlattenIsSelections | frontend/src/components/schedule/MonthlySchedule.tsx:87-90 | the day lists in key order are the selections in key order |
| MonthlySchedule.InsertByStartFacts | frontend/src/components/schedule/MonthlySchedule.tsx:88-90 | one insertion step adds exactly the inserted schedule |
| MonthlySchedule.InsertByStartSorted | frontend/src/components/schedule/MonthlySchedule.tsx:88-90 | inserting into a start-time-sorted list keeps it sorted |
| MonthlySchedule.StartingAtSnoc | frontend/src/components/schedule/MonthlySchedule.tsx:88-90 | the schedules starting at t in a list grow by the appended one when it starts at t |
| MonthlySchedule.InsertByStartStable | frontend/src/components/schedule/MonthlySchedule.tsx:88-90 | insertion puts the new schedule after every earlier schedule with the same start time |
| MonthlySchedule.SortByStartSpec | frontend/src/components/schedule/MonthlySchedule.tsx:88-90 | each day's list is sorted by start time, a permutation, and stable among equal start times |
| MonthlySchedule.InsertByStartAt | frontend/src/components/schedule/MonthlySchedule.tsx:88-90 | insertion places the schedule after the ones not later than it and before the later ones |
| MonthlySchedule.ShiftedIsInsert | frontend/src/components/schedule/MonthlySchedule.tsx:88-90 | shifting later schedules up one place and dropping the schedule into the gap is the insertion |
| MonthlySchedule.SortByStartPrefix | frontend/src/components/schedule/MonthlySchedule.tsx:88-90 | sorting one more schedule is inserting it into the sorted prefix |
| MonthlySchedule.SortByStart | frontend/src/components/schedule/MonthlySchedule.tsx:88-90 | the stable sort by start time; `SortByStartSpec` proves it sorted, a permutation and stable |
| MonthlySchedule.InsertInPlace | frontend/src/components/schedule/MonthlySchedule.tsx:88-90 | one in-place pass inserts a[i] into the sorted prefix and leaves the rest of the array alone |
| MonthlySchedule.SortDay | frontend/src/components/schedule/MonthlySchedule.tsx:88-90 | the day's array is sorted in place, stably by start time |
| SchedulePage.ShiftMonth | frontend/src/pages/SchedulePage.tsx:50-54 | shifting a month always gives a real date |
| SchedulePage.Target | frontend/src/pages/SchedulePage.tsx:52 | the target month is in 0..11 and its month index is shifted by exactly `direction` |
| SchedulePage.ShiftMonthExact | frontend/src/pages/SchedulePage.tsx:51-53 | when the day fits the target month, the shift lands on that day of it |
| SchedulePage.ShiftMonthOverflow | frontend/src/pages/SchedulePage.tsx:51-53 | otherwise the surplus days run into the month after the target |
| SchedulePage.ShiftMonthAcrossYears | frontend/src/pages/SchedulePage.tsx:50-54 | December forward is January of the next year; January back is December of the year before |
| SchedulePage.ShiftFromJanuary31 | frontend/src/pages/SchedulePage.tsx:51-53 | January 31 forward lands in March: on the 2nd in a leap year, the 3rd otherwise |
| SchedulePage.ShiftMonthUndo | frontend/src/pages/SchedulePage.tsx:50-54 | for days 1..28 shifting back undoes a shift |
| SchedulePage.Page.constructor | frontend/src/pages/SchedulePage.tsx:11-17 | the page starts with no schedules, today's key selected, today viewed and no error |
| SchedulePage.Page.RequestParams | frontend/src/pages/SchedulePage.tsx:23-29 | the request sends the full year and the 1-based month |
| SchedulePage.Page.LoadSchedules | frontend/src/pages/SchedulePage.tsx:31-34 | a result replaces the list and clears the error; a failure sets the error message and keeps the old list |
| SchedulePage.Page.ChangeMonth | frontend/src/pages/SchedulePage.tsx:50-54 | only the viewed date changes, by the month shift |
| SchedulePage.Page.HandleDateSelect | frontend/src/pages/SchedulePage.tsx:57-59 | only the selected key changes, to the given one |
| ScheduleForm.Get | frontend/src/components/schedule/ScheduleForm.tsx:17-26 | the record has a field for exactly the eight input names; `trainer` and `max_participants` hold numbers |
| ScheduleForm.WithInput | frontend/src/components/schedule/ScheduleForm.tsx:90-96 | an input change sets only the named field: `parseInt` for the two numeric fields, the raw text otherwise |
| ScheduleForm.SplitHourMinutes | frontend/src/components/schedule/ScheduleForm.tsx:66 | "HH:MM" splits into the hour and minute fields |
| ScheduleForm.ParseHour | frontend/src/components/schedule/ScheduleForm.tsx:67 | `parseInt` reads a padded hour field back |
| ScheduleForm.EndTimeOneHourLater | frontend/src/components/schedule/ScheduleForm.tsx:64-73 | for "HH:MM" the end time is the next hour, padded, with the same minutes |
| ScheduleForm.EndTimeOfClock | frontend/src/components/schedule/ScheduleForm.tsx:64-73 | the end time derived from the current time is one hour later with the same minutes |
| ScheduleForm.Pad2TwentyFour | frontend/src/components/schedule/ScheduleForm.tsx:67 | hour 24 is written "24" |
| ScheduleForm.EndTimeNoMidnightWrap | frontend/src/components/schedule/ScheduleForm.tsx:64-73 | a start in hour 23 ends in hour "24" with the same minutes; the hour does not wrap to "00" |
| ScheduleForm.EndTimeFor | frontend/src/components/schedule/ScheduleForm.tsx:64-73 | the end-time effect's value; `EndTimeOneHourLater` proves it is one hour after an "HH:MM" start |
| ScheduleForm.CapacityFor | frontend/src/components/schedule/ScheduleForm.tsx:76-88 | personal and consultation get capacity 1, group 10, any other type keeps the capacity |
| ScheduleForm.RunEffects | frontend/src/components/schedule/ScheduleForm.tsx:56-88 | each effect runs only when its dependency changed: the date follows the prop, the end time follows a non-empty start time, the capacity follows the type; nothing else changes |
| ScheduleForm.EffectsSettle | frontend/src/components/schedule/ScheduleForm.tsx:56-88 | the effects' own updates change no dependency, so a second pass changes nothing |
| ScheduleForm.AfterCreate | frontend/src/components/schedule/ScheduleForm.tsx:115-121 | after a created schedule, title, description and end time are cleared, the start time is now, and date, type, trainer and capacity are kept |
| ScheduleForm.AfterCreateBlocksResubmit | frontend/src/components/schedule/ScheduleForm.tsx:101-121 | a reset record is refused by the required-field check, even after its effects run |
| ScheduleForm.MountEffects | frontend/src/components/schedule/ScheduleForm.tsx:64-88 | after the first effects the end time is one hour after now and the capacity is 1 |
| ScheduleForm.Component.constructor | frontend/src/components/schedule/ScheduleForm.tsx:17-31 | the first render holds the initial record, no trainers and no messages |
| ScheduleForm.Component.CommitEffects | frontend/src/components/schedule/ScheduleForm.tsx:56-88 | the effects update the record and remember the dependency values |
| ScheduleForm.Component.TrainersLoaded | frontend/src/components/schedule/ScheduleForm.tsx:37-46 | the trainer list is kept, and the first trainer becomes the default when there is one |
| ScheduleForm.Component.HandleInputChange | frontend/src/components/schedule/ScheduleForm.tsx:90-96 | the record changes by the input and nothing else does |
| ScheduleForm.Component.HandleSubmit | frontend/src/components/schedule/ScheduleForm.tsx:98-133 | sends exactly when title, both times and a truthy trainer are present; otherwise sets the required message; success resets and notifies the parent; a failure shows the server message |
| ScheduleForm.Component.Created | frontend/src/components/schedule/ScheduleForm.tsx:112-121 | the success text is shown and the record is reset with the clock's time |
| ScheduleModel.NewSchedule | backend/schedules/models.py:24-62 | a new schedule is personal, scheduled, with capacity 1, no description and no members |
| ScheduleModel.TruncDiv | backend/schedules/models.py:82 | `int()` of a quotient truncates toward zero on both signs |
| ScheduleModel.DurationSign | backend/schedules/models.py:76-82 | whole minutes are exact; positive exactly from a minute after, negative exactly from a minute before; under a day in size |
| ScheduleModel.Duration | backend/schedules/models.py:76-82 | the minutes are the seconds difference over 60 truncated toward zero: at most the difference and within a minute of it, on its side of zero |
| ScheduleModel.ParticipantCount | backend/schedules/models.py:84-87 | `participant_count`; `ParticipantCountOfAdd` proves how `members.add` changes it |
| ScheduleModel.ParticipantCountOfAdd | backend/schedules/models.py:84-87 | adding a new member raises the count by one; adding a joined member leaves it |
| ScheduleModel.NewScheduleTakesOne | backend/schedules/models.py:89-91 | with the default capacity of 1, a new schedule can register a member, and one member fills it |
| ScheduleModel.CanRegister | backend/schedules/models.py:89-91 | `can_register()`; `RegisterWithinCapacity` and `NewScheduleTakesOne` prove what it guards |
| ScheduleModel.RegisterWithinCapacity | backend/schedules/models.py:89-91 | registering while `can_register()` holds never exceeds the capacity, and taking the last place closes registration |
| ScheduleModel.OrderingIsStrictTotal | backend/schedules/models.py:71 | ordering by (date, start time) is a strict order and total on different keys |
| ApiViews.ParseIsoDate | backend/api/views.py:137-138 | `strptime('%Y-%m-%d')` yields only real dates in years 1..9999 |
| ApiViews.SplitDashedKey | backend/api/views.py:138 | a 10-character dashed key splits into its three fields |
| ApiViews.ParseIsoDateOfKey | backend/api/views.py:137-139 | the backend parses the client's date key back to the same date |
| ApiViews.ParseDashedKey | backend/api/views.py:137-139 | a dashed key whose fields read as a real date parses to that date |
| ApiViews.ParseSpacedDayKey | backend/api/views.py:137-139 | a dashed key whose day is a space and one digit parses to its date, as `%d` allows |
| ApiViews.ParseIsoDateSpacedDay | backend/api/views.py:137-139 | "2024-03- 5" filters to March 5, 2024 |
| ApiViews.ParseIsoDateFields | backend/api/views.py:137-141 | a successful parse means three fields that read as the year, the month and the day, the day possibly space-padded |
| ApiViews.Select | backend/api/views.py:139-165 | one filter keeps exactly the rows that meet its condition and adds none |
| ApiViews.Conditions | backend/api/views.py:131-167 | building the filters fails exactly on a non-integer trainer or on a month filter whose year is outside 1..9999 |
| ApiViews.SelectAllMembers | backend/api/views.py:131-167 | chained filters keep exactly the rows meeting every condition |
| ApiViews.SelectAll | backend/api/views.py:131-167 | chained filters never add rows: the result is no longer than the input and drawn from it |
| ApiViews.ConditionsAreMatches | backend/api/views.py:131-167 | the built conditions hold exactly when each given parameter matches |
| ApiViews.FiltersHold | backend/api/views.py:135-165 | each parameter's filter holds exactly when its match predicate does |
| ApiViews.AllHoldAtMostOne | backend/api/views.py:135-165 | a filter of at most one condition holds as that condition does |
| ApiViews.DateFilterHolds | backend/api/views.py:135-141 | a parsable date keeps that day; a missing or unparsable date keeps everything |
| ApiViews.MonthFilterHolds | backend/api/views.py:144-150 | with integer month and year both given, the filter keeps that 1-based month of that year; otherwise everything |
| ApiViews.TrainerFilterHolds | backend/api/views.py:153-155 | a given trainer keeps that trainer's schedules |
| ApiViews.TypeFilterHolds | backend/api/views.py:158-160 | a given type keeps schedules of that code |
| ApiViews.StatusFilterHolds | backend/api/views.py:163-165 | a given status keeps schedules of that code |
| ApiViews.AllHoldConcat | backend/api/views.py:131-167 | conditions chained one after another hold exactly when both parts hold |
| ApiViews.QuerysetIsConjunction | backend/api/views.py:131-167 | the query fails exactly on a non-integer trainer or on a usable month with a year outside 1..9999; otherwise it keeps exactly the rows matching every given parameter |
| ApiViews.GetQueryset | backend/api/views.py:130-167 | the list is a server error exactly on a non-integer trainer or an out-of-range year, and otherwise a subset of the stored rows |
| ApiViews.QuerysetWithoutParams | backend/api/views.py:131-167 | without parameters every row is returned |
| ApiViews.NothingGiven | backend/api/views.py:134-165 | without parameters no filter applies |
| ApiViews.UnparsableDateIgnored | backend/api/views.py:136-141 | an unparsable date is the same as no date |
| ApiViews.UnusableMonthIgnored | backend/api/views.py:146-150 | a month filter without both integer parameters is the same as no month |
| ApiViews.SelectOrdered | backend/api/views.py:124 | filtering keeps the (date, start time) order |
| ApiViews.SelectAllOrdered | backend/api/views.py:124 | chained filters keep the order |
| ApiViews.QuerysetKeepsOrder | backend/api/views.py:124-167 | the filtered list stays in the default order |
| ApiViews.TodayRows | backend/api/views.py:169-175 | `today` keeps exactly the filtered rows dated today, and fails when the query fails |
| ApiViews.DaysAhead | backend/api/views.py:181 | `today + timedelta(days=n)` is a real date |
| ApiViews.DaysAheadDayNumber | backend/api/views.py:181 | it lies exactly n days later |
| ApiViews.UpcomingRows | backend/api/views.py:177-187 | `upcoming` fails exactly when the query fails |
| ApiViews.UpcomingWindow | backend/api/views.py:181-185 | the window holds exactly the dates 0..7 days after today: eight days |
| ApiViews.UpcomingMembers | backend/api/views.py:177-187 | `upcoming` keeps exactly the filtered rows dated 0..7 days ahead |
| ApiViews.TodayWithinUpcoming | backend/api/views.py:169-187 | every row of `today` is in `upcoming` |
| ApiViews.UpcomingWeekRows | backend/api/views.py:177-187 | the corrected seven-day window fails exactly when the query fails |
| ApiViews.UpcomingWeekMembers | backend/api/views.py:177-187 | the corrected window keeps exactly the rows dated 0..6 days ahead |
| ApiViews.UpcomingListsEighthDay | backend/api/views.py:179-185 | as written, a row seven days ahead is listed by `upcoming` but outside the seven days its docstring names |
| ApiViews.Truthy | backend/api/views.py:195-196 | Python truthiness of the posted `member_id` (absent, null, false, 0, 0.0, "" and empty containers are falsy); specified through `JoinChecksInOrder` and `JoinDigitText` |
| ApiViews.LookupId | backend/api/views.py:198-201 | the id `Member.objects.get(id=...)` coerces with `int()` (true is 1, a float is truncated, text is parsed, containers and null raise); specified through `JoinDigitText`, `JoinNonNumericText` and `JoinCoercions` |
| ApiViews.JoinOutcome | backend/api/views.py:189-207 | every refusal leaves the members unchanged; a join adds exactly the member the posted value coerces to |
| ApiViews.JoinChecksInOrder | backend/api/views.py:195-207 | a falsy `member_id` is refused first (400), then a value `int()` rejects is an uncaught error (500), then an unknown member (404), then a full schedule (400), otherwise the member joins; each answer iff its case |
| ApiViews.JoinResponse.Status | backend/api/views.py:196-207 | the HTTP status of each answer of `join`; specified in `JoinReplyTexts` |
| ApiViews.JoinResponse.Message | backend/api/views.py:196-207 | the `error` or `message` text of each answer of `join`; specified in `JoinReplyTexts` |
| ApiViews.JoinReplyTexts | backend/api/views.py:196-207 | every answer but the uncaught 500 carries a non-empty text of its own, only the join answers 200, and status and text together tell all five answers apart |
| ApiViews.LookupDigitText | backend/api/views.py:195-201 | a posted string of digits is truthy and is looked up as the number it spells |
| ApiViews.JoinDigitText | backend/api/views.py:195-201 | a posted digit string is never "missing" (so "0" is looked up, 404 when no member 0) and a non-zero one is answered like the number it spells |
| ApiViews.JoinNonNumericText | backend/api/views.py:198-201 | a non-empty string `int()` rejects ("abc") is a server error (500), with the members unchanged |
| ApiViews.JoinCoercions | backend/api/views.py:195-201 | `true` and 1.5 are both answered as member 1, and 0.5 is truthy and not refused as missing |
| ApiViews.JoinNeverOverfills | backend/api/views.py:203-206 | a join adds at most one member, and only below capacity, so it never pushes the count above capacity |
| ApiViews.JoinAgain | backend/api/views.py:203-207 | joining a member already present, with room left, reports success and changes nothing |
| ApiViews.StoredSchedule.constructor | backend/api/views.py:192 | the stored schedule holds the given record |
| ApiViews.StoredSchedule.Join | backend/api/views.py:189-207 | for any posted JSON value, the response and the new member set are the join outcome; no other field changes |
| ApiViews.ActiveFilter | backend/api/views.py:63-65 | a filter applies exactly when the parameter is given |
| ApiViews.ActiveSpellings | backend/api/views.py:63-65 | active rows are selected exactly for "true" in any case mix; every other value selects inactive rows |
| ApiViews.FilterActive | backend/api/views.py:110-112 | the list filter shared by the membership and member views: without the parameter all rows are kept; with it, exactly the rows whose flag equals the requested value |
| MemberModel.Display | backend/members/models.py:56-57 | the text is the name, " (", the phone and ")", and both fields read back from it |
| MemberModel.Age | backend/members/models.py:59-68 | there is an age exactly when there is a birth date |
| MemberModel.AgeCountsFullYears | backend/members/models.py:65-67 | the age is the number of birthdays passed: today is on or after the a-th birthday and before the next |
| MemberModel.AgeNonNegative | backend/members/models.py:65-67 | someone born on or before today has an age of at least 0 |
| MemberModel.AgeOnBirthday | backend/members/models.py:65-67 | on the birthday the age is the year difference |
| MemberModel.AgeMonotone | backend/members/models.py:65-67 | the age never decreases as the day advances, and grows by at most one within a year |
| PostAdmin.ContentPreview | backend/posts/admin.py:47-51 | content up to the limit is shown unchanged; longer content keeps its first `limit` characters and gains "..." |
| PostAdmin.PostContentPreview | backend/posts/admin.py:47-51 | a post preview has at most 53 characters |
| PostAdmin.CommentContentPreview | backend/posts/admin.py:83-88 | a comment preview has at most 33 characters |
| PostAdmin.PreviewIdempotent | backend/posts/admin.py:47-51 | previewing a preview changes nothing |
| PostAdmin.PreviewIsPrefixed | backend/posts/admin.py:48-50 | the preview starts with the content, up to the limit |
| PostAdmin.ImagePreview | backend/posts/admin.py:54-61 | the no-image text is shown exactly when there is no image |
| ApiClient.GetErrorMessage | frontend/src/services/api.ts:226-237 | the first truthy of detail, error and message, else the fixed text; never empty |
| ApiClient.ErrorMessageSource | frontend/src/services/api.ts:226-237 | the message is one the error carried, or the fixed text |
| ApiClient.GetImageUrl | frontend/src/services/api.ts:240-244 | no path gives ''; an `http` path is kept; anything else goes under the server origin |
| ApiClient.GetImageUrlIdempotent | frontend/src/services/api.ts:240-244 | every non-empty URL starts with `http`, so completing it again changes nothing |
| ApiClient.LocalStorage.constructor | frontend/src/services/api.ts:21 | storage starts empty |
| ApiClient.LocalStorage.GetItem | frontend/src/services/api.ts:21 | an item is found exactly when its key is stored, with the stored value |
| ApiClient.LocalStorage.SetItem | frontend/src/services/api.ts:21 | storing a key sets that key and no other |
| ApiClient.LocalStorage.RemoveItem | frontend/src/services/api.ts:37 | removing a key drops that key and no other |
| ApiClient.WithAuth | frontend/src/services/api.ts:19-26 | `Authorization` is "Token " + token exactly when a truthy token is stored; otherwise the headers are unchanged; other headers are kept |
| ApiClient.RequestConfig.constructor | frontend/src/services/api.ts:20 | the config holds the given headers |
| ApiClient.AuthorizeRequest | frontend/src/services/api.ts:19-26 | the interceptor returns the same config with the auth header rule applied |
| ApiClient.RejectResponse | frontend/src/services/api.ts:33-43 | a 401 removes the token and nothing else; any other error leaves storage alone; the error is passed on unchanged |
| ApiClient.UnauthorizedThenAnonymous | frontend/src/services/api.ts:19-43 | after a 401, later requests carry no auth header |
| ApiClient.PartOf | frontend/src/services/api.ts:186-190 | an entry contributes a part exactly when it is neither undefined nor null, under its own key |
| ApiClient.BuildFormData | frontend/src/services/api.ts:182-191 | the `forEach` loop builds exactly the specified parts |
| ApiClient.FormParts | frontend/src/services/api.ts:185-191 | the parts the `forEach` appends; `FormPartsKeys` and `FormPartsConcat` prove each present entry appears once in order |
| ApiClient.FormPartsKeys | frontend/src/services/api.ts:185-191 | each present entry is appended exactly once, in entry order; absent ones are skipped |
| ApiClient.FormPartsConcat | frontend/src/services/api.ts:185-191 | the parts of concatenated entries are the parts of each side |
| MemberList.Get | frontend/src/components/members/MemberList.tsx:23-34 | the record has a field for exactly the ten input names |
| MemberList.WithInput | frontend/src/components/members/MemberList.tsx:53-59 | an input change sets only the named field: the trainer rule for `trainer`, the raw text otherwise |
| MemberList.TrainerChoice | frontend/src/components/members/MemberList.tsx:57 | choosing a trainer's option stores its id; the placeholder clears it |
| MemberList.TrainerInput | frontend/src/components/members/MemberList.tsx:57 | the trainer input stores undefined for '' and `parseInt` otherwise |
| MemberList.TrainerOption | frontend/src/components/members/MemberList.tsx:57 | an id's option text reads back as the id; '' reads as undefined |
| MemberList.BlanksPass | frontend/src/components/members/MemberList.tsx:64-67 | a name and phone of blanks pass the check, though they trim to nothing |
| MemberList.InitialBlocksSubmit | frontend/src/components/members/MemberList.tsx:64-67 | a fresh or reset record is refused until a name and phone are entered |
| MemberList.InitialJoinDateReadsBack | frontend/src/components/members/MemberList.tsx:29 | the default join date is what the backend parses back as today |
| MemberList.Component.constructor | frontend/src/components/members/MemberList.tsx:22-37 | the first render has the initial record, the form closed and no error |
| MemberList.Component.ToggleForm | frontend/src/components/members/MemberList.tsx:105-107 | the button flips the form open or closed and changes nothing else |
| MemberList.Component.HandleInputChange | frontend/src/components/members/MemberList.tsx:53-59 | the record changes by the input and nothing else does |
| MemberList.Component.HandleSubmit | frontend/src/components/members/MemberList.tsx:61-97 | sends exactly when name, phone and join date are non-empty; otherwise sets the error; success resets to the initial record, closes the form and notifies; a failure shows the server message |
| MemberList.ItemClass | frontend/src/components/members/MemberList.tsx:224 | an item is active exactly when its id is the selected member's |
| MemberList.AtMostOneActive | frontend/src/components/members/MemberList.tsx:221-224 | with distinct ids at most one item is active |
| MemberList.ShowsInactiveBadge | frontend/src/components/members/MemberList.tsx:240-242 | the `비활성` badge condition; specified in `BadgeFollowsActiveQuery` |
| MemberList.BadgeFollowsActiveQuery | frontend/src/components/members/MemberList.tsx:240-242 | a member of a list fetched with `?is_active=v` is one of the stored members and shows the inactive badge exactly when `v` is not `true` in some mix of cases |
| MemberDetail.PostTypeNamesDistinguish | frontend/src/components/members/MemberDetail.tsx:114-130 | each post type has its own label and class; any other value gets the shared fallback, which no type has |
| MemberDetail.PostTypeLabel | frontend/src/components/members/MemberDetail.tsx:114-121 | `getPostTypeLabel`; `PostTypeNamesDistinguish` proves each type its own label and a shared fallback |
| MemberDetail.PostTypeClass | frontend/src/components/members/MemberDetail.tsx:123-130 | `getPostTypeClass`; `PostTypeNamesDistinguish` proves each type its own class and a shared fallback |
| MemberDetail.DisabledMatchesCheck | frontend/src/components/members/MemberDetail.tsx:221-225 | with nothing in flight, the button is enabled exactly when the check would pass, and disabled exactly for all-whitespace text |
| MemberDetail.BuildPostData | frontend/src/components/members/MemberDetail.tsx:74-82 | the post data is the member, type and trimmed text, then the image when one was chosen |
| MemberDetail.ThreeTextParts | frontend/src/services/api.ts:185-191 | three present non-file entries give three text parts in order |
| MemberDetail.PayloadParts | frontend/src/components/members/MemberDetail.tsx:74-84 | the multipart body is the three text parts, then the image as a file part exactly when one was chosen |
| MemberDetail.PostFieldsParts | frontend/src/components/members/MemberDetail.tsx:74-78 | the three fields give three text parts |
| MemberDetail.ImageFieldParts | frontend/src/components/members/MemberDetail.tsx:80-82 | the image entry gives a file part exactly when there is an image |
| MemberDetail.FormPartsOne | frontend/src/services/api.ts:185-191 | one entry's parts are its own part, if any |
| MemberDetail.PostComposer.constructor | frontend/src/components/members/MemberDetail.tsx:14-21 | the composer starts empty, as a workout, with no image, hidden and with no error |
| MemberDetail.PostComposer.ToggleForm | frontend/src/components/members/MemberDetail.tsx:166-171 | the header button flips whether the composer is shown and changes nothing else |
| MemberDetail.PostComposer.SetContent | frontend/src/components/members/MemberDetail.tsx:178-184 | the typed text becomes the content and nothing else changes |
| MemberDetail.PostComposer.SetPostType | frontend/src/components/members/MemberDetail.tsx:211-219 | the chosen type becomes the post type and nothing else changes |
| MemberDetail.PostComposer.ChooseImage | frontend/src/components/members/MemberDetail.tsx:43-53 | a chosen file is kept; no file changes nothing |
| MemberDetail.PostComposer.PreviewLoaded | frontend/src/components/members/MemberDetail.tsx:48-50 | the loaded data URL becomes the preview and nothing else changes |
| MemberDetail.PostComposer.RemoveImage | frontend/src/components/members/MemberDetail.tsx:55-60 | both the image and its preview are cleared; nothing else changes |
| MemberDetail.PostComposer.HandlePostSubmit | frontend/src/components/members/MemberDetail.tsx:62-101 | sends exactly when a member is selected and the text is not all whitespace; otherwise sets the error; success empties and hides the composer; a failure shows the server message |
| MemberDetail.PostComposer.Reset | frontend/src/components/members/MemberDetail.tsx:86-91 | the composer is emptied, set to workout and hidden |

## Left out

- Time zones: date keys are modelled as the zero-padded local (year, month, day). `toISOString()` takes the UTC date instead, so east of UTC a key can be a day early. `new Date("YYYY-MM-DD")` in the monthly list has the same issue.
- Years outside 0..9999: the key lemmas (`DateKeyFields`, `DateKeyInjective`, `SelectedAtMostOnce`) need a four-digit year. The 0..99 rule of `new Date(y, m, d)` is modelled. `TodayMarked` and `CalendarForShowsCurrentMonth` exclude years 0..99, where the grid shows 1900..1999 instead.
- Locale formatting: `formatDate`, `formatDateTime`, `toLocaleDateString` and the date text of `getTimeAgo` past a week are a parameter `formatted`.
- `getTimeAgo` takes integer seconds. `ElapsedSeconds` models the floored division of millisecond timestamps.
- The clock is not modelled: `new Date()` and `date.today()` are parameters.
- Network calls are not modelled: each request's outcome is a parameter. Loading flags and the success message's three-second `setTimeout` are left out.
- Fetch races are left out: overlapping schedule loads can finish in either order.
- React rendering and reactivity are left out. `CommitEffects` stands for one effect pass after a render; effects are run in source order with their dependency comparison.
- `FileReader` is asynchronous: its completion is the separate `PreviewLoaded` step.
- DOM access and JSX markup are left out (clearing the file input, `confirm()`, CSS). So is every `*API` wrapper other than `createPost`'s form assembly.
- JavaScript's `Array.prototype.sort` is modelled as a stable insertion sort. The standard requires a stable sort, so the outcome is the same.
- `localeCompare` on start times is modelled as plain character order. The times are zero-padded digits, where the two agree.
- Python's `int()` accepts only ASCII digits in the model. Unicode digits and underscores between digits are not modelled.
- `strptime` is modelled on ASCII digits: four for the year, one or two for the month, and one or two or a space and one digit for the day.
- ApiViews.ParseIsoDate: reads ASCII digits only; the `\d` of `strptime`'s patterns also accepts other Unicode decimal digits.
- Text.AsciiLower: lowers ASCII capitals only, where Python's `str.lower()` also lowers non-ASCII capitals and can lengthen the text ('İ'). The `is_active` test `== 'true'` has the same outcome either way, because no non-ASCII character lowers to t, r, u or e.
- ApiViews.LookupId: a posted JSON number with a fraction is modelled by its truncated integer part and a flag for the fraction, which is what truthiness and `int()` see; floating-point rounding of large numbers and non-finite values are not modelled.
- Text.ParseInt / Text.JsNumber: numbers are exact integers. A JavaScript number is an IEEE double, so `parseInt` rounds a numeral beyond 2^53, and `String` prints 10^21 and above in exponent form. This reaches `ScheduleForm.WithInput`, `ScheduleForm.EndTimeFor` and `MemberList.WithInput`.
- ScheduleModel.Duration: times are whole seconds. Python's `time`, which a `TimeField` holds, also carries microseconds, and those can change the truncated minute (10:00:00.5 to 10:01:00 is 0 minutes).
- The trainer filter with a non-integer value is modelled as a server error. The model does not say which exception the ORM raises.
- Other member and membership filters (trainer, member, type) are left out, and so is the search and ordering query syntax. Only the `is_active` rule is modelled.
- `perform_create`, serializers and routing are left out.
- `Schedule.__str__` is left out. It renders Python `date`/`time` values, whose text is not part of the model.
- `Post.weight` is left out: it is a floating-point field.
- `image_preview` is modelled only for its no-image branch. The HTML it builds for an image is only said to differ from the no-image text, because `format_html` escaping is not modelled.
- Unknown input names are ignored by the form models. In the source, the spread would add a new property to the record.
- ScheduleForm.EndTimeNoMidnightWrap: states the end hour as `Pad2(24)`. `Pad2TwentyFour` proves separately that this is "24".

## Findings

| source | as written | input that shows it | evidently intended | confidence | as-written member | corrected member |
|---|---|---|---|---|---|---|
| frontend/src/utils/dateUtils.ts:73-82 | the leading labels count up to the length of the month two before the viewed one (`new Date(year, month - 1, 0)`), and each label is dated in the month before, so dates can repeat or be skipped | March 2024 (`generateCalendar(2024, 2)`): labels 27..31 from January; label 30 becomes March 1, which the month block shows again | leading cells are the last days of the previous month, so the grid is 42 consecutive days whose columns match their weekdays | high (proved; not executed) | DateUtils.LeadingDatesRepeat | DateUtils.CorrectedGridConsecutive, DateUtils.CorrectedGridColumns |
| backend/api/views.py:177-187 | `upcoming` keeps dates from today to today + 7 inclusive: eight days | a schedule dated exactly seven days after today is listed | the docstring's seven days including today: today to today + 6 | medium (proved; not executed) | ApiViews.UpcomingListsEighthDay | ApiViews.UpcomingWeekRows, ApiViews.UpcomingWeekMembers |
