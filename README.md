# trip_together — a Dafny model of the trip planner's core

trip_together is a small web application for planning a group trip. Participants share a
trip by a six-character code and vote on a calendar for the days they can or cannot
travel. The application then picks the best window of dates, looks up cheap flights and
strips the markdown from a generated itinerary.

This project models the logic behind those features and proves properties about it:

- the optimistic update of the vote list when a participant clicks or drags over days
  (`handleVote` in `App.tsx`), and the writes it sends;
- the choice of the best dates (`handleGenerateItinerary` in `App.tsx`);
- the 42-cell month grid of `components/Calendar.tsx` and
  `components/DateRangePicker.tsx`, with the per-day statistics, heatmap tiers, the range
  picker's cell classification and click rules;
- the date keys `YYYY-MM-DD` (the complete calendar-date extended format of ISO 8601:2004,
  section 4.1.2.2) of `utils/dateUtils.ts`;
- destination validation and sanitisation, destination lookup, the Korean holiday table,
  and markdown stripping (`utils/`);
- the share code, the `createTrip` retry loop, share-code lookup, vote-row mapping,
  de-duplication, the realtime echo filter and the creator check of
  `services/tripService.ts`;
- the token cache, single-flight result mapping and the batched cheapest-flight search of
  `services/flightSearchService.ts`.

Dates are proleptic Gregorian `(year, month, day)` values. Day 0 is 0001-01-01, a Monday,
so `getDay()` is `(DayNumber + 1) % 7`. "Today", the random numbers, the clock and every
remote answer are parameters. Code whose state changes in place is modelled by classes
and methods:

- the vote list and its write log (`Votes.VoteBoard`);
- the month shown by the range picker (`RangePicker.PickerView`);
- the module-level token cache (`FlightSearch.TokenCache`).

Code that loops is modelled by methods with loop invariants. Each of these methods is
proved equal to a specification function, and the properties are proved about that
function.

| file | module | models |
|---|---|---|
| wrappers.dfy | Wrappers | `Option` and `Result` |
| text.dfy | Text | `trim`, ASCII `toLowerCase`/`toUpperCase`, `includes`, `split`, `String(n)`, `Number(s)`, the default string order |
| calendar_dates.dfy | CalendarDates | leap years, month lengths, day numbers, weekdays, `new Date(y, m, d)` with overflow |
| date_utils.dfy | DateUtils | `utils/dateUtils.ts` |
| types.dfy | Types | `types.ts` |
| month_grid.dfy | MonthGrid | the `daysInMonth` grid builders |
| calendar.dfy | CalendarView | `getDayStats`, `getCellStyles`, crown and click of `Calendar.tsx` |
| range_picker.dfy | RangePicker | `DateRangePicker.tsx` |
| votes.dfy | Votes | `handleVote` |
| best_dates.dfy | BestDates | `handleGenerateItinerary` up to the plan request |
| input_validation.dfy | InputValidation | `utils/inputValidation.ts` |
| destinations.dfy | Destinations | `utils/popularDestinations.ts` |
| holidays.dfy | Holidays | `utils/koreanHolidays.ts` |
| markdown.dfy | Markdown | `utils/markdownConverter.ts` |
| trip_service.dfy | TripService | `services/tripService.ts` |
| flight_search.dfy | FlightSearch | `services/flightSearchService.ts` |

Where the source is ambiguous, the model follows what the code does.

- There is no rollback of votes and no polling: a failing remote call in `handleVote` is
  only logged (`App.tsx:311-314`).
- Several comments in the source say that dates are handled in Korean time (UTC+9). The
  code only uses the host's local time, and the model takes the host zone to be UTC (see
  "Left out").
- The heatmap ratios are compared by cross-multiplication. `HeatMatchesRatio` proves that
  this agrees with the source's division.

## Model

| member | source | states |
|---|---|---|
| Text.Trim | utils/inputValidation.ts:63 | `trim` removes only whitespace, from both ends; the result is empty exactly for all-whitespace input and otherwise starts and ends with a non-whitespace character |
| Text.TrimStart | utils/markdownConverter.ts:54 | a suffix of the input whose removed head is all whitespace and whose first character is not whitespace |
| Text.TrimEnd | utils/markdownConverter.ts:54 | a prefix of the input whose removed tail is all whitespace and whose last character is not whitespace |
| Text.ToLower | utils/inputValidation.ts:37 | same length; each character is lower-cased (ASCII letters) and others are kept |
| Text.ToUpper | utils/popularDestinations.ts:27 | same length; each character is upper-cased (ASCII letters) and others are kept |
| Text.ContainsWitness | utils/inputValidation.ts:39 | an `includes` hit yields the index where the needle occurs |
| Text.ContainsAt | utils/inputValidation.ts:39 | an occurrence at any index makes `includes` true |
| Text.LessTrichotomy | App.tsx:342 | the default `sort()` order on strings is total and antisymmetric |
| Text.LessTransitive | App.tsx:342 | the default string order is transitive |
| Text.LessConcat | utils/dateUtils.ts:3-8 | concatenations with equally long heads compare by the heads, or by the tails when the heads agree |
| Text.NatToString | utils/dateUtils.ts:4 | `String(n)` is a non-empty digit string without a leading zero, one digit exactly below 10 |
| Text.NatToStringRoundTrip | utils/dateUtils.ts:13 | `Number(String(n)) == n` |
| Text.Pad2 | utils/dateUtils.ts:5-6 | `padStart(2, '0')` gives two digits for values below 100 |
| Text.Pad2RoundTrip | utils/dateUtils.ts:5-6 | the padded form reads back as the number |
| Text.ParseNumber | utils/dateUtils.ts:13 | `Number(s)` is defined exactly on digit strings (the empty string reads as 0) |
| Text.Split | utils/dateUtils.ts:13 | `split(sep)` yields at least one part, none containing the separator |
| Text.SplitFirst | utils/dateUtils.ts:13 | splitting `a + sep + b` gives `a` followed by the parts of `b` |
| CalendarDates.DaysInMonth | components/Calendar.tsx:28 | 28 to 31 days, 29 exactly for February of a leap year |
| CalendarDates.Weekday | utils/koreanHolidays.ts:43 | `getDay()` is between 0 and 6 |
| CalendarDates.Next | components/Calendar.tsx:34-66 | the following day is a valid date after the given one |
| CalendarDates.Prev | components/Calendar.tsx:34-42 | the preceding day is a valid date before the given one |
| CalendarDates.NextNumber | components/Calendar.tsx:34-66 | the following day has the next day number |
| CalendarDates.AddDaysNumber | components/Calendar.tsx:34-66 | moving `k` days changes the day number by `k` |
| CalendarDates.DayNumberInjective | components/Calendar.tsx:47 | a valid date is determined by its day number |
| CalendarDates.BeforeIffDayNumber | components/DateRangePicker.tsx:87 | calendar order is the order of day numbers, which is how `Date` values compare |
| CalendarDates.MakeLocalDate | utils/dateUtils.ts:15 | `new Date(y, m, d)` is a valid date, month and day overflow normalised (within the `Date` range; see Left out) |
| CalendarDates.MakeLocalDateNumber | utils/dateUtils.ts:15 | `new Date(y, m, d)` lies `d - 1` days after the first of the normalised month, so day 0 is the last day of the previous month |
| CalendarDates.MakeLocalDateExact | utils/dateUtils.ts:15 | an in-range day is constructed as itself (years outside 0..99) |
| CalendarDates.LastOfMonth | components/Calendar.tsx:28 | `new Date(y, m + 1, 0)` is the last day of month `m` |
| CalendarDates.NextMonthFirst | components/Calendar.tsx:57-59 | the first of the next month lies month-length days after the first of this one |
| DateUtils.FormatIsKey | utils/dateUtils.ts:3-8 | for four-digit years `toLocalISOString` yields a well-formed 10-character `YYYY-MM-DD` key of the same date |
| DateUtils.KeyDate | utils/dateUtils.ts:12-16 | a well-formed key denotes a valid date with a four-digit year |
| DateUtils.ParseLocalDate | utils/dateUtils.ts:12-16 | a parsed date, when there is one, is a valid calendar date |
| DateUtils.ParseFields | utils/dateUtils.ts:12-16 | a key whose three dash-separated fields are digits parses as `new Date(y, m - 1, d)` |
| DateUtils.ParseOfFormat | utils/dateUtils.ts:3-16 | `parseLocalDate(toLocalISOString(d)) == d` for every year from 100 on |
| DateUtils.FormatOfParse | utils/dateUtils.ts:3-16 | a well-formed key parses to its date, and `toLocalISOString` of that date is the key again |
| DateUtils.CompareLocalDates | utils/dateUtils.ts:19-23 | defined exactly when both sides parse, and then the day difference times 86 400 000 |
| DateUtils.CompareAgreesWithStringOrder | utils/dateUtils.ts:19-23 | on well-formed keys the sign of the comparison is negative, zero or positive exactly as the keys' string order says |
| DateUtils.CompareAntisymmetric | utils/dateUtils.ts:19-23 | swapping the arguments negates the result, and a parsable key compares equal to itself |
| DateUtils.KeyOrder | utils/dateUtils.ts:3-8 | string order of well-formed keys is calendar order, and equal keys are equal dates |
| DateUtils.DigitsCanonical | utils/dateUtils.ts:4 | a digit string without a leading zero is `String(Number(t))` |
| MonthGrid.FirstShown | components/Calendar.tsx:27 | `firstDay` is the first of the shown month |
| MonthGrid.Padding | components/Calendar.tsx:33 | fewer than seven previous-month cells |
| MonthGrid.LastDayIsMonthLength | components/Calendar.tsx:28 | `lastDay.getDate()` is the number of days of the shown month |
| MonthGrid.Grid | components/Calendar.tsx:24-69 | the grid has exactly 42 cells |
| MonthGrid.BuildMonth | components/Calendar.tsx:24-69 | the three loops build exactly `Grid(shown, today)` |
| MonthGrid.PushPreviousMonth | components/Calendar.tsx:33-42 | the first loop builds the padding cells of the grid |
| MonthGrid.PushShownMonth | components/Calendar.tsx:45-54 | the second loop extends them by the days of the month |
| MonthGrid.PushNextMonth | components/Calendar.tsx:57-66 | the third loop completes the grid to 42 cells |
| MonthGrid.GridAt | components/Calendar.tsx:34-66 | cell `k` holds day `k - padding + 1` of the shown month |
| MonthGrid.DayCell | components/Calendar.tsx:34-66 | the cell's date is a valid calendar day, and a cell is marked as today only when it is today and in the shown month; where the day lands is `DayCellNumber` |
| MonthGrid.Cells | components/Calendar.tsx:34-66 | exactly `n` cells, each with a valid date; which day each holds is `CellsAt` |
| MonthGrid.GridPadding | components/Calendar.tsx:33-66 | the padding is the weekday of the 1st, and at least five next-month cells follow the month |
| MonthGrid.GridConsecutive | components/Calendar.tsx:34-66 | neighbouring cells hold consecutive days, across month and year ends |
| MonthGrid.GridWeekday | components/Calendar.tsx:33-66 | column `k % 7` is the weekday, 0 being Sunday |
| MonthGrid.GridCurrentMonth | components/Calendar.tsx:38-50 | a cell is a current-month cell exactly when it holds a day of the shown month, and those cells hold days 1..N in order |
| MonthGrid.GridTodayUnique | components/Calendar.tsx:39-47 | at most one cell is today, and it is a current-month cell |
| MonthGrid.DayCellConsecutive | components/DateRangePicker.tsx:40-70 | the cells of consecutive day arguments hold consecutive days |
| CalendarView.VotesOn | components/Calendar.tsx:78 | exactly the votes on the date |
| CalendarView.CountOfType | components/Calendar.tsx:79-80 | zero exactly when no vote has that type |
| CalendarView.CountsCover | components/Calendar.tsx:79-80 | available plus unavailable count is the number of votes on the day |
| CalendarView.FirstIndexOf | components/Calendar.tsx:82 | the first index whose vote is by the user, or none when there is no such vote |
| CalendarView.GetDayStats | components/Calendar.tsx:77-85 | the counts add up to the day's votes; `myVote` is absent exactly without a vote of the user on the day, and otherwise the type of the first such vote |
| CalendarView.HeatOf | components/Calendar.tsx:92-105 | the perfect tier exactly for `totalUsers > 0 && availableCount === totalUsers` |
| CalendarView.HeatMatchesRatio | components/Calendar.tsx:108-115 | the integer thresholds pick the same tier as the ratio thresholds 0.75, 0.5 and 0.25 |
| CalendarView.HeatMonotone | components/Calendar.tsx:105-121 | with the participants fixed, more available votes never lower the tier |
| CalendarView.CellStyles | components/Calendar.tsx:87-125 | other-month cells are always grey; inside the month the ring is the user's vote, the perfect style is the perfect match, and the rose style applies exactly with no available and some unavailable vote |
| CalendarView.PerfectMatchCell | components/Calendar.tsx:165 | the crown needs a current-month cell and agrees with the perfect tier of the cell's style |
| CalendarView.VoteTarget | components/Calendar.tsx:170 | a click calls `onVote` with the cell's key exactly on current-month cells |
| CalendarView.GridVoteTargets | components/Calendar.tsx:162-170 | exactly the cells of days 1..N of the shown month are clickable |
| CalendarView.GridCrownInMonth | components/Calendar.tsx:162-182 | the crown appears only within the shown month |
| RangePicker.IsDateInRange | components/DateRangePicker.tsx:81-88 | false when a bound is missing or empty; otherwise the day lies between the parsed bounds, both inclusive |
| RangePicker.IsStartDate | components/DateRangePicker.tsx:90-92 | a predicate without a contract: strict equality with the `startDate` prop, so it never holds while the prop is null |
| RangePicker.IsEndDate | components/DateRangePicker.tsx:94-96 | a predicate without a contract: strict equality with the `endDate` prop, so it never holds while the prop is null |
| RangePicker.KeyWindow | components/DateRangePicker.tsx:81-88 | on date keys membership is the closed interval of the string order, so nothing is in range when the end sorts before the start |
| RangePicker.SingleDayWindow | components/DateRangePicker.tsx:81-88 | a one-day window holds exactly its own key |
| RangePicker.IsPast | components/DateRangePicker.tsx:100-103 | strictly earlier days than today's midnight, and never an unparsable key |
| RangePicker.CellStyle | components/DateRangePicker.tsx:98-144 | past and dimmed flags as in the source; start/end styling takes precedence over in-range; both ends on one cell give the full round shape; the today ring needs a current-month cell |
| RangePicker.ClickTarget | components/DateRangePicker.tsx:191-203 | `onDateClick` is called with the cell's key exactly when the day is not before today |
| RangePicker.TodayClickable | components/DateRangePicker.tsx:191-203 | today's cell is clickable |
| RangePicker.GuideMessage | components/DateRangePicker.tsx:225-227 | the guide is chosen by which bounds are set, and an end without a start shows none |
| RangePicker.FollowedShowsStartMonth | components/DateRangePicker.tsx:19-29 | after the effect the start date's month is shown, on its 1st unless that month was already shown |
| RangePicker.FollowedIdempotent | components/DateRangePicker.tsx:19-29 | running the effect again changes nothing |
| RangePicker.PickerView.constructor | components/DateRangePicker.tsx:16 | the picker starts on today |
| RangePicker.PickerView.FollowStart | components/DateRangePicker.tsx:19-29 | the shown date becomes `Followed(old shown, startDate)` |
| Votes.Without | App.tsx:251 | never longer than the input |
| Votes.FilterMembers | App.tsx:251 | the filter keeps exactly the votes that are not the user's on a listed date |
| Votes.NewEntries | App.tsx:263-267 | one `voteMode` vote of the user per listed date |
| Votes.FirstOwn | App.tsx:257 | the user's first vote on the date, or none when there is none |
| Votes.Added | App.tsx:253-270 | everything appended is the user's `voteMode` vote on a listed date |
| Votes.NextVotes | App.tsx:251-269 | `finalVotes` starts with the filtered old list, in order, and everything after it is the user's `voteMode` vote on a listed date |
| Votes.OthersUnchanged | App.tsx:251-269 | votes of other users, and the user's votes on unlisted dates, survive unchanged and in order |
| Votes.BulkRemoveClears | App.tsx:251-254 | a bulk remove leaves no vote of the user on a listed date |
| Votes.TouchedAreAdded | App.tsx:251-269 | every vote of the user on a listed date in the new list was appended and has type `voteMode` |
| Votes.BulkAddExact | App.tsx:261-268 | a bulk add over duplicate-free dates leaves exactly one vote of the user per listed date, of type `voteMode` |
| Votes.ToggleRule | App.tsx:255-260 | a click clears the user's vote when the existing one already has type `voteMode`, and otherwise leaves exactly one `voteMode` vote there |
| Votes.UniquePreserved | App.tsx:251-269 | at most one vote per date and user stays so (for duplicate-free dates) |
| Votes.NextVotesCount | App.tsx:251-269 | the new count of a (date, user) pair is the old one unless touched, plus what was appended |
| Votes.AddThenRemove | App.tsx:251-268 | bulk add then bulk remove of the same dates gives the list without the user's earlier votes on them, which is the original when there were none |
| Votes.InsertIsAdded | App.tsx:298-305 | the rows sent for insert are exactly the appended votes |
| Votes.RowsOf | App.tsx:301-308 | one row per vote, each carrying the trip, the current user and that vote's date and type |
| Votes.ToInsert | App.tsx:298-308 | never more rows than votes, and every row is for this trip, the current user and a listed date |
| Votes.ToggleOffInsertsNothing | App.tsx:298-309 | a toggle-off sends no rows to insert |
| Votes.Writes | App.tsx:274-310 | offline only saves the list; a bulk remove writes exactly the delete; otherwise the delete comes first, followed by an insert of `toInsert` exactly when the delete did not throw and `toInsert` is not empty |
| Votes.ToggleOffWrites | App.tsx:288-309 | online, a toggle-off deletes the user's vote on the date and inserts nothing |
| Votes.VoteBoard.constructor | App.tsx:245 | the board holds the initial list and an empty write log |
| Votes.VoteBoard.HandleVote | App.tsx:245-315 | without a user or trip nothing changes; otherwise the list becomes `NextVotes` and the writes are appended to the log |
| BestDates.AvailableCount | App.tsx:330-334 | never more than the number of votes |
| BestDates.CountedDatesMembers | App.tsx:330-334 | a date is a key of `voteCounts` exactly when it has an available vote |
| BestDates.CountedDatesDistinct | App.tsx:330-334 | each date is a key once |
| BestDates.AvailableCountPositive | App.tsx:331 | only available votes count |
| BestDates.CountAvailable | App.tsx:329-334 | the `forEach` loop builds exactly the count map and its keys in creation order |
| BestDates.MaxCount | App.tsx:336 | no count exceeds the maximum, and a positive maximum is reached by some key |
| BestDates.ReachingMembers | App.tsx:342 | the filter keeps exactly the keys whose count is the maximum |
| BestDates.Sort | App.tsx:342 | `sort()` permutes its input |
| BestDates.SortSorted | App.tsx:342 | `sort()` orders by the default string order |
| BestDates.MaxIsHighest | App.tsx:336 | no date's available count exceeds the maximum |
| BestDates.Choose | App.tsx:336-346 | the alert exactly when no key has a positive count; no start only when the empty key has the highest positive count; otherwise both ends of the window are keys with the highest positive count |
| BestDates.ChooseFor | App.tsx:328-346 | both ends of a window are best dates: positive and highest available count |
| BestDates.BestDatesExact | App.tsx:329-342 | the best dates are exactly those with a positive and highest available count |
| BestDates.BestDatesSorted | App.tsx:342 | the best dates are sorted |
| BestDates.NoAvailableDateIff | App.tsx:336-340 | the handler alerts exactly when no vote is available |
| BestDates.WindowOrdered | App.tsx:343-346 | start and end are best dates, the start does not sort after the end, and every best date lies between them |
| BestDates.ChooseWindow | App.tsx:328-346 | the handler's choice is `ChooseFor(votes)` |
| InputValidation.SpecialCount | utils/inputValidation.ts:52 | zero exactly without a character of the class |
| InputValidation.ValidationOf | utils/inputValidation.ts:26-58 | `valid` exactly when there is no error message |
| InputValidation.ValidateDestination | utils/inputValidation.ts:26-58 | the method with its two search loops returns `ValidationOf(input)` |
| InputValidation.SearchKeywords | utils/inputValidation.ts:37-42 | the keyword loop hits exactly when some lower-cased keyword occurs in the lower-cased input |
| InputValidation.SearchPatterns | utils/inputValidation.ts:45-49 | the pattern loop hits exactly when some pattern matches somewhere |
| InputValidation.HasForbiddenKeyword | utils/inputValidation.ts:37-42 | a predicate without a contract: some keyword, lower-cased, occurs in the lower-cased input; `SearchKeywords` is the loop proved against it |
| InputValidation.HasInjectionPattern | utils/inputValidation.ts:45-49 | a predicate without a contract: some pattern tests true on the input; `SearchPatterns` is the loop proved against it |
| InputValidation.BlankRejected | utils/inputValidation.ts:28-30 | blank input is refused with the "enter a destination" message, whatever its length |
| InputValidation.TooLongRejected | utils/inputValidation.ts:32-34 | non-blank input over 100 characters is refused for its length |
| InputValidation.KeywordOrSpecialRejected | utils/inputValidation.ts:37-55 | a keyword, or more than three special characters, causes refusal |
| InputValidation.ValidIff | utils/inputValidation.ts:26-58 | valid exactly when no check fires, so three special characters alone do not refuse |
| InputValidation.KeywordsCoverPatterns | utils/inputValidation.ts:4-20 | the first five patterns fire only where a keyword already occurs |
| InputValidation.MatchHereExact | utils/inputValidation.ts:16-22 | the greedy whitespace reading of the patterns agrees with the backtracking regular-expression match |
| InputValidation.TestsContainsWord | utils/inputValidation.ts:45-49 | a pattern that fires has its word in the lower-cased input |
| InputValidation.Collapse | utils/inputValidation.ts:66 | no longer than the input, empty only for empty input, ends kept unless whitespace |
| InputValidation.CollapseShape | utils/inputValidation.ts:66 | the result holds whitespace only as single spaces |
| InputValidation.CollapseCollapsed | utils/inputValidation.ts:66 | collapsing a collapsed string changes nothing |
| InputValidation.Sanitized | utils/inputValidation.ts:61-74 | at most 100 characters |
| InputValidation.SanitizeDestination | utils/inputValidation.ts:61-74 | the method's reassignments give `Sanitized(input)` |
| InputValidation.SanitizedShape | utils/inputValidation.ts:61-74 | at most 100 characters, no leading whitespace, whitespace only as single spaces, a prefix of the collapsed trimmed input |
| InputValidation.SanitizeIdempotent | utils/inputValidation.ts:61-74 | cleaning twice is cleaning once when the first clean-up did not cut |
| Destinations.FirstByCode | utils/popularDestinations.ts:30-32 | the first entry whose code matches, or none when none does |
| Destinations.FirstByName | utils/popularDestinations.ts:36-38 | the first entry in a name relation with the input, or none |
| Destinations.FindDestination | utils/popularDestinations.ts:26-42 | a found destination is a table entry |
| Destinations.CodeFirst | utils/popularDestinations.ts:27-33 | the first code match is returned, before any name match |
| Destinations.NameSecond | utils/popularDestinations.ts:35-39 | without a code match, the first name match is returned |
| Destinations.NotFoundIff | utils/popularDestinations.ts:26-42 | `null` exactly when no entry is related to the input by code or name |
| Destinations.BlankFindsFirst | utils/popularDestinations.ts:36-39 | blank input returns the first entry |
| Destinations.CodesDistinct | utils/popularDestinations.ts:7-23 | the table's codes are pairwise distinct |
| Destinations.FindDestinationByCode | utils/popularDestinations.ts:45-47 | returns an entry whose code matches case-insensitively, `null` exactly when none does |
| Destinations.ByCodeExact | utils/popularDestinations.ts:45-47 | the lookup returns entry `i` exactly when the upper-cased argument is its code |
| Holidays.FindHoliday | utils/koreanHolidays.ts:36-37 | the first entry with exactly that date, or none when none has it |
| Holidays.IsKoreanHoliday | utils/koreanHolidays.ts:35-38 | an entry of the table with exactly that date, `null` exactly when none has it |
| Holidays.Rows | utils/koreanHolidays.ts:8-33 | every row is a date key and names a day before the next row |
| Holidays.TableAscending | utils/koreanHolidays.ts:8-33 | the table's dates are keys in strictly increasing order |
| Holidays.LookupExact | utils/koreanHolidays.ts:35-38 | the lookup returns entry `i` exactly when the date is that entry's date |
| Holidays.SubstituteMondays | utils/koreanHolidays.ts:18-30 | every substitute holiday falls on a Monday |
| Holidays.LocalMidnight | utils/koreanHolidays.ts:42 | `new Date(iso + 'T00:00:00')` is a date exactly for date keys, and names the key's day |
| Holidays.IsSunday | utils/koreanHolidays.ts:41-44 | true exactly for keys whose weekday is 0 |
| Holidays.IsSaturday | utils/koreanHolidays.ts:47-50 | true exactly for keys whose weekday is 6 |
| Holidays.NeverBoth | utils/koreanHolidays.ts:41-50 | no day is both |
| Holidays.GridWeekends | utils/koreanHolidays.ts:41-50 | in the month grid the Sunday test holds in the first column and the Saturday test in the last |
| Markdown.Stripped | utils/markdownConverter.ts:7-57 | empty input comes back as it is; the output has no pipe, no tab, no two spaces and no three newlines in a row, and no whitespace at either end |
| Markdown.RemoveMarkdown | utils/markdownConverter.ts:7-57 | the seventeen reassignments of `cleaned` give `Stripped(text)` |
| Markdown.Matcher | utils/markdownConverter.ts:13-53 | each pass's matches cover at least one character and add only input characters and the pass's own replacement text |
| Markdown.MatchFence | utils/markdownConverter.ts:13 | a fenced block is replaced by nothing |
| Markdown.MatchDelimited | utils/markdownConverter.ts:16 | a match is a marker, a non-empty body without the marker, and a marker, and is replaced by the body (`` ` `` here, `_` for line 27) |
| Markdown.HeaderAt | utils/markdownConverter.ts:19 | a header starts with `#` at a line start, and its title is non-empty, holds no line end and runs to the end of its line |
| Markdown.MatchHeader | utils/markdownConverter.ts:19 | a header is replaced by its title |
| Markdown.MatchDoubled | utils/markdownConverter.ts:22-23 | a match is two markers, a non-empty body without the marker, and two markers, and is replaced by the body |
| Markdown.MatchItalic | utils/markdownConverter.ts:26 | a match is a `*` not preceded by `*`, a non-empty body without `*`, and a `*` not followed by `*`, and is replaced by the body |
| Markdown.LinkAt | utils/markdownConverter.ts:30 | a link is `[`, text up to its first `]`, `(`, a non-empty target up to its first `)`, and `)` |
| Markdown.MatchLink | utils/markdownConverter.ts:30 | a link is replaced by its non-empty text |
| Markdown.MatchImage | utils/markdownConverter.ts:33 | `!` followed by a link is replaced by the link's non-empty text |
| Markdown.MatchBlankLines | utils/markdownConverter.ts:52 | a match is replaced by two newlines |
| Markdown.MatchBlanks | utils/markdownConverter.ts:53 | a match is replaced by one space |
| Markdown.Scan | utils/markdownConverter.ts:13-53 | a function without a contract: the left-to-right global replacement; `ScanAddsNothing` and `ScanNoMatch` state what it does |
| Markdown.ScanNoMatch | utils/markdownConverter.ts:13-53 | where the expression matches nowhere the text comes back unchanged |
| Markdown.MatchPipe | utils/markdownConverter.ts:48 | a pipe becomes a space |
| Markdown.MatchBullet | utils/markdownConverter.ts:36 | list markers are removed |
| Markdown.MatchNumbered | utils/markdownConverter.ts:39 | number markers are removed |
| Markdown.MatchRule | utils/markdownConverter.ts:42 | rule lines are removed |
| Markdown.MatchQuote | utils/markdownConverter.ts:45 | quote markers are removed |
| Markdown.MatchTableRule | utils/markdownConverter.ts:49 | `:-` runs are removed |
| Markdown.ScanAddsNothing | utils/markdownConverter.ts:13-53 | a global replacement adds no character that is neither in the input nor in the replacement text |
| Markdown.PipesReplaced | utils/markdownConverter.ts:48 | no pipe survives the pipe pass |
| Markdown.BlankLinesAgree | utils/markdownConverter.ts:52 | the scan of `\n{3,}` is the direct "three or more newlines become two" reading |
| Markdown.BlanksAgree | utils/markdownConverter.ts:53 | the scan of `[ \t]+` is the direct "a run becomes one space" reading |
| Markdown.BlankLinesSqueezed | utils/markdownConverter.ts:52 | no run of three newlines remains |
| Markdown.BlanksNoTab | utils/markdownConverter.ts:53 | no tab remains |
| Markdown.BlanksNoDouble | utils/markdownConverter.ts:53 | no two spaces in a row remain |
| Markdown.BlanksNoTriple | utils/markdownConverter.ts:52-53 | the blank pass creates no run of three newlines |
| Markdown.FinalPassesClean | utils/markdownConverter.ts:48-54 | the last four passes and `trim` leave a clean text |
| Markdown.FenceBlockRemoved | utils/markdownConverter.ts:13 | a fenced block is removed with everything up to the first closing fence |
| Markdown.LinkTakesImage | utils/markdownConverter.ts:30-33 | the link pass runs first and turns an image into `!` and its alt text |
| Markdown.ImageNeedsBracket | utils/markdownConverter.ts:33 | text without `[` passes the image pass unchanged |
| TripService.ShareCodeFrom | services/tripService.ts:17-24 | six characters, each the alphabet character the draw selects |
| TripService.ShareCodeValid | services/tripService.ts:17-24 | every drawn code has six characters from the 32-character alphabet |
| TripService.AlphabetExcludesLookalikes | services/tripService.ts:18 | the alphabet has no `0`, `O`, `I` or `1` |
| TripService.GenerateShareCode | services/tripService.ts:17-24 | the loop appends the six selected characters |
| TripService.StepOf | services/tripService.ts:55-75 | a returned conflict is retried, a thrown one only while another attempt remains, and only a row ends in success |
| TripService.AttemptCodesAt | services/tripService.ts:35-72 | attempt `k` sends the code from the `k`-th block of six draws |
| TripService.CreateFrom | services/tripService.ts:39-80 | at most ten attempts |
| TripService.CreateTrip | services/tripService.ts:27-81 | the loop's result and attempt count are `CreateFrom`, and the codes sent are one fresh code per attempt |
| TripService.RetriesOnlyOnConflict | services/tripService.ts:55-73 | every attempt but the last asked for a retry, and a created trip is the last attempt's row |
| TripService.NoUniqueCodeIff | services/tripService.ts:39-80 | "unique share code" failure exactly when all ten attempts asked for a retry |
| TripService.OtherErrorPassedOn | services/tripService.ts:63-75 | an error other than a conflict on attempt `k`, after `k` retried conflicts, ends the loop after `k + 1` attempts and is passed on |
| TripService.TripByShareCode | services/tripService.ts:84-96 | the upper-cased code is looked up; PGRST116 becomes `null`, other errors are passed on |
| TripService.ShareCodeCaseInsensitive | services/tripService.ts:88 | the letter case of the typed code does not matter |
| TripService.VotesOfRows | services/tripService.ts:151-155 | one vote per row, in order, with the columns renamed |
| TripService.VotesRoundTrip | services/tripService.ts:151-155 | reading back the rows written for votes gives the votes |
| TripService.DateVotes | services/tripService.ts:144-156 | an error is passed on, rows are mapped |
| TripService.Present | services/tripService.ts:392-394 | exactly the joined trips that are not null |
| TripService.PresentAppend | services/tripService.ts:392-394 | the filter keeps the relative order of the non-null trips: it distributes over concatenation, keeps a present trip and drops a null |
| TripService.FirstIndexOf | services/tripService.ts:398 | `findIndex` gives the first index of the id |
| TripService.KeepFirstCorrect | services/tripService.ts:397-399 | kept trips have unique ids, each is the trip at the first index of its id, they come in the order of those first indices, and every input id is covered |
| TripService.KeepFirst | services/tripService.ts:397-399 | a function without a contract: the first trip of each id, in order; `KeepFirstCorrect` states what it keeps |
| TripService.KeepFirstFromOrdered | services/tripService.ts:397-399 | the trips kept from any suffix come in the order of their ids' first indices |
| TripService.KeepFirstUnique | services/tripService.ts:397-399 | trips with unique ids are kept as they are |
| TripService.KeepFirstIdempotent | services/tripService.ts:397-399 | de-duplication is idempotent |
| TripService.ParticipatedTrips | services/tripService.ts:367-402 | errors other than PGRST116 are passed on; otherwise the present trips, first occurrence of each id, in order |
| TripService.ParticipatedTripsUnique | services/tripService.ts:367-402 | the result has unique ids, all among the joined trips; each is the first present trip with its id, in the order of those first occurrences, and every joined id is covered |
| TripService.OwnChangesFiltered | services/tripService.ts:307-313 | a change by the current user, on the new row or failing that the old one, is never delivered, and every other change is |
| TripService.Delivered | services/tripService.ts:307-313 | with no signed-in user every change is delivered; a change naming a user on its new row is delivered exactly when that user is someone else |
| TripService.DeleteTrip | services/tripService.ts:405-430 | the delete is issued only when the fetched creator is the user; anyone else gets "only the creator" |
| FlightSearch.Lifetime | services/flightSearchService.ts:70 | a missing or zero lifetime falls back to 1799 seconds |
| FlightSearch.TokenStep | services/flightSearchService.ts:39-82 | missing credentials fail without touching the cache; a handed-out token is the cached one; the cache changes only on a successful renewal after an expiry check at `now` |
| FlightSearch.TokenCache.constructor | services/flightSearchService.ts:37 | the cache starts empty |
| FlightSearch.TokenCache.AccessToken | services/flightSearchService.ts:39-82 | the result and new cache are `TokenStep` of the old cache |
| FlightSearch.CachedTokenReused | services/flightSearchService.ts:48-50 | while `expiresAt > now` the cached token is returned whatever the endpoint would say |
| FlightSearch.ExpiredTokenRefreshed | services/flightSearchService.ts:52-81 | once expired, a new token is cached with its lifetime counted from the clock reading after the fetch (`doneAt`), and a failure keeps the cache |
| FlightSearch.FreshTokenReused | services/flightSearchService.ts:48-75 | a fetched token is reused until its lifetime, counted from its arrival, has passed |
| FlightSearch.FirstSegment | services/flightSearchService.ts:148-157 | the first segment of the first itinerary of the first offer, absent when any is missing |
| FlightSearch.AirlineName | services/flightSearchService.ts:163-176 | a known code gives a name from the table |
| FlightSearch.AirlineFallback | services/flightSearchService.ts:163-176 | the code itself is shown exactly when the table lacks it |
| FlightSearch.ConvertPrice | services/flightSearchService.ts:179-189 | euros become won at 1400, other currencies are kept |
| FlightSearch.FormatDuration | services/flightSearchService.ts:192-197 | the text ends in `m` |
| FlightSearch.HoursAndMinutes | services/flightSearchService.ts:194-196 | fewer than 60 minutes, and hours and minutes add up to the whole minutes |
| FlightSearch.DurationRoundTrip | services/flightSearchService.ts:192-197 | for non-negative durations the text reads back as the whole minutes |
| FlightSearch.SameTextSameMinutes | services/flightSearchService.ts:192-197 | two durations show the same text exactly when they have the same whole minutes |
| FlightSearch.NegativeDurationMinutesOnly | services/flightSearchService.ts:192-197 | a negative duration shows minutes only, between -60 and 0 |
| FlightSearch.DatePartOfTimestamp | services/flightSearchService.ts:95-96 | `split('T')[0]` of a timestamp is its date |
| FlightSearch.DatePart | services/flightSearchService.ts:95-96 | the date part holds no `T` |
| FlightSearch.ReturnPart | services/flightSearchService.ts:96 | no return date gives the empty text |
| FlightSearch.BookingUrl | services/flightSearchService.ts:200-203 | the link starts with the Google Flights search address |
| FlightSearch.ReturnLinkExtendsOneWay | services/flightSearchService.ts:200-203 | a round trip's link is the one-way link followed by the return date |
| FlightSearch.DestinationName | services/flightSearchService.ts:159-160 | exactly the table name when the destination is found (table names are never empty), else the destination itself |
| FlightSearch.ToFlightResult | services/flightSearchService.ts:159-215 | code, airline, times, price and duration are taken from the first offer and segment |
| FlightSearch.SearchFlight | services/flightSearchService.ts:85-224 | a 429 is re-thrown as a rate limit; a flight exactly with a token, a successful status and a first segment; every other failure is `null` |
| FlightSearch.Codes | services/flightSearchService.ts:234 | the codes of the table, in order |
| FlightSearch.SearchList | services/flightSearchService.ts:234 | a given list, even an empty one, is searched as it is; otherwise the popular destinations' codes, in table order |
| FlightSearch.Chunks | services/flightSearchService.ts:240-244 | `ceil(n / 2)` batches |
| FlightSearch.MakeBatches | services/flightSearchService.ts:240-244 | the loop builds exactly `Chunks` |
| FlightSearch.ChunksFlatten | services/flightSearchService.ts:240-244 | joining the batches gives the destination list back |
| FlightSearch.ChunkSizes | services/flightSearchService.ts:240-244 | batch `k` holds destinations `2k` and `2k + 1`; all but the last have two |
| FlightSearch.FoundFlightsSource | services/flightSearchService.ts:276-282 | every collected flight is a search's found flight |
| FlightSearch.FoundFlightsComplete | services/flightSearchService.ts:276-282 | every found flight is collected |
| FlightSearch.FoundFlights | services/flightSearchService.ts:276-282 | at most one flight per destination searched |
| FlightSearch.Collect | services/flightSearchService.ts:250-288 | a rate limit is reported exactly when some batch met one, and there is at most one flight per destination |
| FlightSearch.CollectStops | services/flightSearchService.ts:264-274 | stopping at the first rate-limited batch keeps all earlier batches' flights and nothing after |
| FlightSearch.CollectAll | services/flightSearchService.ts:250-288 | without a rate limit every batch's flights are kept in order |
| FlightSearch.RateLimitKeepsEarlierBatches | services/flightSearchService.ts:240-288 | a rate limit in batch `k` keeps exactly the flights of the first `2k` destinations |
| FlightSearch.NoRateLimitKeepsAll | services/flightSearchService.ts:240-288 | without a rate limit the flights of all destinations are kept |
| FlightSearch.SortByPrice | services/flightSearchService.ts:295 | sorted by price and a permutation of the input |
| FlightSearch.Finish | services/flightSearchService.ts:290-295 | throws exactly on a rate limit with nothing collected; otherwise a price-sorted permutation of the flights |
| FlightSearch.CollectBatches | services/flightSearchService.ts:250-288 | the loop's flights and flag are `Collect(batches)` |
| FlightSearch.SearchCheapestFlights | services/flightSearchService.ts:227-296 | the result is `Finish(Collect(Chunks(list)))` of the given or default list |

## Left out

- The host time zone is taken to be UTC. Under that assumption, and for years 1000 to 9999 only, two equalities hold: `new Date(iso)` in `components/DateRangePicker.tsx` equals `parseLocalDate`, and `toISOString().split('T')[0]` in `components/Calendar.tsx` equals `toLocalISOString`. A key with a shorter year such as `999-01-01` is not in the strict ISO format, so what `new Date` makes of it depends on the engine; the model reads it as `parseLocalDate` does. Outside those years `toISOString` pads the year to four digits or writes a signed six-digit year, which the model's key formatting does not. Daylight saving time and other zones are not modelled.
- Invalid Date values are `None`. `Number()` is modelled only on plain ASCII digit strings; signs, spaces, decimals and exponents count as `NaN`.
- CalendarDates.MakeLocalDate: the `Date` range of ±8.64e15 ms (about ±275,760 years) and the double-precision limit of `Number` are not modelled. Beyond them `new Date(y, m, d)` is Invalid Date, while the model still returns a date.
- DateUtils.ParseLocalDate: for the same reason a key beyond the `Date` range still parses to a date. In the source `parseLocalDate("300000-01-01")` is Invalid Date, and `compareLocalDates` then returns `NaN`.
- Holidays.LocalMidnight follows the strict ISO date-time reading: a day outside its month (`2026-02-30`) gives `None`. Engines that roll such a date over to the next month are not modelled.
- Holidays.LocalMidnight accepts only the keys the app produces, whose year runs from 1000 to 9999. A four-digit year with a leading zero (`0999-01-01T00:00:00`) is a valid date of year 999 in the source, so `isSunday` and `isSaturday` can be true for it; the model gives `None` and both are false.
- `toLowerCase`/`toUpperCase` and the `i` flag fold ASCII letters only. Strings are sequences of characters, not UTF-16 code units.
- Month navigation (`changeMonth` with `Date.setMonth`) is not modelled. It is only a navigation control, and its day-overflow behaviour depends on the host time zone.
- Supabase reads, writes and realtime channels are parameters or logged effects. Their timing, concurrency and failures beyond what the code distinguishes are not modelled.
- The `createTrip` insert fields (title, dates, creator, timestamp) are not modelled, and the `vote_type` cast is taken as given.
- localStorage is modelled only as a logged save. Demo mode, `window.location`, `alert`, `prompt` and the clipboard are not modelled.
- `Math.random` is a stream of natural numbers, each reduced modulo 32. Randomness itself is not modelled.
- The token and flight-offer fetches are parameters. The two `Date.now()` readings of `getAmadeusAccessToken` are the `now` and `doneAt` arguments, and `new Date(at).getTime()` is the `epochMs` function.
- FlightSearch.ToFlightResult: `epochMs` returns an integer for every timestamp. In the source an unparsable `departure.at` or `arrival.at` makes `durationMs` `NaN` (services/flightSearchService.ts:192-194), and the duration text becomes `NaNm`. That case is not modelled.
- FlightSearch.SearchCheapestFlights: `search` is a pure function of the destination. The token cache shared by the searches of one batch is not modelled, and neither are the `Promise.allSettled` parallelism and the two-second `setTimeout` delay between batches.
- FlightSearch.ConvertPrice: prices are whole numbers. `parseFloat` and `Math.round` are not modelled, so EUR amounts convert exactly.
- FlightSearch.SortByPrice: sorting by price is proved, but the relative order of equal prices is not stated.
- Messages that are only logged (`console.error`) are not modelled.
- Object keys are not real object properties. Inherited properties such as `constructor` are not looked up in `airlineNames` or `voteCounts`.
- Markdown: each regular expression is modelled as a leftmost, non-overlapping scan with the match rule written out for that expression. There is no general regular-expression engine.
- JSX, class strings and the user-name list inside the calendar cells are presentation. Only the choices behind them are modelled (`CellLook`, `PickerStyle`, the crown and the click target).
- `services/geminiService.ts`, `services/authService.ts`, the pages and the configuration files are not part of this model.
