# Hourglass time-entry pipeline, modelled in Dafny

Hourglass is a dashboard over a time-tracking service. It fetches a user's time
entries and the workspace's projects. It then normalises every entry: a duration in
milliseconds, plus a project name and colour. From those entries it builds several
views:

- a PDF report: a project summary table, one table per day, a closing summary page and
  page footers;
- statistics cards: total hours, days worked, average per day, projects, earnings, and
  the status against the hours the billing period expects;
- an entries table grouped by project, with a copy-to-clipboard text;
- a bar chart of hours per day;
- a pie chart of hours per project;
- an earnings card component, which `App.jsx` imports but never renders.

A constant table of twelve billing periods supplies the expected hours.

The model has one module per source file:

| module | models |
|---|---|
| `Durations` | `parseDuration` and `formatDuration` |
| `Enrichment` | the project map and the per-entry normalisation in `getTimeEntries` |
| `Report` | `generatePDFReport` and `downloadReport` |
| `TimeStats` | `calculateStats` and the target status |
| `TimeEntriesList` | `formatMillisecondsToTime`, `groupedEntries`, the row totals and the clipboard text |
| `DailyHoursChart` | the `dailyHours` reduce and the bar data |
| `ProjectDistributionChart` | the `projectGroups` reduce, the pie arrays and the legend/tooltip share |
| `EarningsStats` | the `earnings` memo of a component the dashboard does not render |
| `BillingPeriods` | `BILLING_YEAR`, `billingPeriods` and `getBillingYear` |

Shared modules:

- `JsValues`: options, thrown errors as results, IEEE division outcomes, `toFixed(2)`
  rounding, `||` on strings, and the truncating `%`.
- `Text`: digit strings, `padStart` and the JavaScript `\s` class.
- `Decimals`: the `toFixed(2)` text and `parseFloat` of it.
- `Entries`: the enriched entry and its sums.
- `Grouping`: one insertion-ordered group-by over an association list. It stands for a
  reduce into a JavaScript object. It is proved to partition its input and to conserve
  sums, and every reduce of the source is an instance of it.
- `Sorting`: a stable sort by a numeric rank.

How the model works:

- **Reduces.** Every reduce that mutates an accumulator is a method with a loop. The
  loop invariant ties the accumulator to a specification function over the prefix
  already consumed. The properties are proved about that function.
- **Outside behaviour as parameters.** Date-fns formatting (`fmt`), `new Date(label)`
  ordering (`dateRank`), the clock read for each page's footer (`clock`) and autotable's
  `finalY` are parameters. `finalY` is a function of where a table starts and what it
  holds (`summaryTableEnd`, `dayTableEnd`), so it may follow how long cells wrap.
- **Exact arithmetic.** Timestamps and durations are integer milliseconds. Hours are
  exact reals.

Where the written design of the system and the code differ, the model follows the
code:

- the report has no placeholder date buckets;
- the summary table is not sorted;
- page breaks do not repeat a header;
- the file name starts with `Clockify_Report_`;
- no chart image is embedded;
- the report's average per day is not guarded against zero days.

## Model

| member | source | states |
|---|---|---|
| Durations.ParseDuration | src/services/timeTrackingService.js:66-77 | The result is never negative and is a whole number of seconds. It is 0 when the text has no "PT". |
| Durations.ParseAfterFirstPT | src/services/timeTrackingService.js:69 | The unanchored match: only the text after the first "PT" affects the result. |
| Durations.ParseIsoDuration | src/services/timeTrackingService.js:69-76 | Round trip: "PT[h H][m M][s S]" parses to (h*3600 + m*60 + s)*1000, and an absent component counts 0. |
| Durations.ParseMinutesOnly | src/services/timeTrackingService.js:69-76 | "PT5M" is 300000 ms. |
| Durations.ParseFractionIgnored | src/services/timeTrackingService.js:69-74 | A digit run not followed by its letter is skipped: "PT1.5S" is 0. |
| Durations.ParseDayDurationIgnored | src/services/timeTrackingService.js:69-70 | "P1DT2H" has no "PT" substring and parses to 0. |
| Durations.FormatDuration | src/services/timeTrackingService.js:79-83 | For ms >= 0 the text is "{ms div 3600000}h {(ms mod 3600000) div 60000}m". |
| Durations.FormatDurationWholeMinutes | src/services/timeTrackingService.js:79-83 | For ms >= 0 the text reads back as hours and minutes, with minutes below 60, that are ms truncated to whole minutes. |
| Durations.FormatParsedHoursMinutes | src/services/timeTrackingService.js:66-83 | Round trip: formatting the parse of "PT{h}H{m}M" with m < 60 prints "{h}h {m}m". |
| Durations.FormatNegativeExample | src/services/timeTrackingService.js:80-81 | JavaScript's floor and truncating %: -1.5 h renders as "-2h -30m". |
| Durations.ComponentReads | src/services/timeTrackingService.js:69 | A present "{n}L" component is read back as n; an absent one is skipped and leaves the text alone. |
| Enrichment.DetailsOf | src/services/timeTrackingService.js:89-92 | The project map's value keeps the name; an empty colour becomes "#666666". |
| Enrichment.DirectoryKeys | src/services/timeTrackingService.js:88-94 | The map's keys are exactly the projects' ids. |
| Enrichment.DirectoryValue | src/services/timeTrackingService.js:88-94 | An id maps to the details of the last project with that id. |
| Enrichment.BuildProjectMap | src/services/timeTrackingService.js:88-94 | The reduce builds the map the specification function describes. |
| Enrichment.NormalizedDuration | src/services/timeTrackingService.js:107-113 | With both interval ends, start + duration == end, so the duration is negative only when the end precedes the start. Otherwise it is a whole number of seconds, and 0 without a "PT". |
| Enrichment.Enrich | src/services/timeTrackingService.js:115-131 | Raw fields are carried over and the duration is normalised. Name and colour come from the map when the id is set and known, and are "No Project"/"#666666" otherwise. |
| Enrichment.EnrichAll | src/services/timeTrackingService.js:106-132 | One enriched entry per raw entry, same length and order. |
| Enrichment.EnrichFromDirectory | src/services/timeTrackingService.js:88-128 | An entry whose id names a project takes that (last such) project's name and its colour, which defaults to grey. |
| Enrichment.EnrichUnknownProject | src/services/timeTrackingService.js:115-131 | An entry whose id names no project gets the "No Project" defaults. |
| Enrichment.GetTimeEntries | src/services/timeTrackingService.js:86-133 | After the fetches: index the projects, then enrich every entry against that map. |
| Report.ProjectStep | src/services/timeTrackingService.js:138-150 | One callback step of the project reduce equals one more entry in the group-by specification. |
| Report.GroupByProject | src/services/timeTrackingService.js:138-150 | The loop computes exactly the project groups of the specification. |
| Report.ProjectGroupsShape | src/services/timeTrackingService.js:138-150 | One group per distinct `projectName`/"No Project", in first-occurrence order. Each group holds exactly its entries in input order, and its total is their sum. Its colour is the first entry's, or grey. |
| Report.ProjectTotalsConserved | src/services/timeTrackingService.js:152-153 | The group totals add up to the sum of all entry durations. |
| Report.SummaryRows | src/services/timeTrackingService.js:216-225 | One summary row per group, in group order. |
| Report.SummaryHoursAddUp | src/services/timeTrackingService.js:216-236 | The rows' hours add up to the footer's total hours. |
| Report.SummaryPercentagesAddUp | src/services/timeTrackingService.js:218-236 | With a non-zero total every percentage is a number and they add up to the footer's 100. With a zero total each is NaN or an infinity. |
| Report.PercentagesWhole | src/services/timeTrackingService.js:218 | Percentages of groups against their own total add up to 100. |
| Report.AddToDateBuckets | src/services/timeTrackingService.js:264-271 | The date callback appends the entry to its date's bucket, creating it at the end when new. |
| Report.GroupByDate | src/services/timeTrackingService.js:264-271 | It fails exactly when some entry has no start, with the error of the first such entry: a TypeError when it has no `timeInterval`, "Invalid time value" when the start is missing. Otherwise it yields the date group-by. |
| Report.SortedDatesProps | src/services/timeTrackingService.js:274-276 | Each date appears once, in ascending date order. A date is listed exactly when some entry's start formats to it. |
| Report.DetailRows | src/services/timeTrackingService.js:293-297 | One detail row per entry of the day, in order; the description defaults to "No description". |
| Report.DrawDay | src/services/timeTrackingService.js:279-321 | A day table shows its entries and daily total. It breaks the page (y = 20) exactly when it is not the first and the previous table ended below 220; otherwise it starts 15 below `finalY` (or `yPos`). |
| Report.LayOutDays | src/services/timeTrackingService.js:279-322 | One table per sorted date, showing that date's bucket. The whole sequence obeys the placement rules. |
| Report.BreaksCounted | src/services/timeTrackingService.js:283-288 | The explicit page breaks are exactly the tables, other than the last, that end below 220; the first table never breaks. |
| Report.DailyTotalsConserved | src/services/timeTrackingService.js:279-281 | The daily totals of the day tables add up to the sum of all durations. |
| Report.StampFooters | src/services/timeTrackingService.js:366-389 | Page i of 1..N gets exactly one footer, "Page i of N", with the credit and the time the clock gives while that page is stamped. |
| Report.PageLabelsDistinct | src/services/timeTrackingService.js:388 | Different pages carry different page labels. |
| Report.GeneratePdfReport | src/services/timeTrackingService.js:136-392 | Fails exactly when an entry has no start, with the first such entry's error (as GroupByDate). Otherwise the report satisfies `Describes`: period and user lines, summary rows and footer, the day tables laid out by the rules, total time and hours, days, the unguarded average, project count, page count = 3 + breaks, and one footer per page stamped with that page's clock reading. |
| Report.AverageNaNOnlyWhenEmpty | src/services/timeTrackingService.js:349-350 | The average is NaN exactly for an empty report. Otherwise there are at least one and at most as many days as entries, and it is a number. |
| Report.ReportFileNameHasNoWhitespace | src/services/timeTrackingService.js:399 | The file name contains no whitespace character, whatever the names. |
| Report.DownloadReport | src/services/timeTrackingService.js:395-404 | Fails with "Failed to generate time tracking report" exactly when a fetched entry has no start. Otherwise it returns the whitespace-free file name and a report that `Describes` the enriched entries. |
| Text.StripWhitespace | src/services/timeTrackingService.js:399 | The result has no whitespace and keeps a whitespace-free string unchanged; it only drops characters. |
| Text.StripWhitespaceKeeps | src/services/timeTrackingService.js:399 | Every character that is not whitespace is kept, as many times as it occurs. |
| Text.StripWhitespaceAppend | src/services/timeTrackingService.js:399 | Stripping a concatenation strips each part, so the kept characters stay in order. |
| TimeStats.CalculateStats | src/components/TimeStats.jsx:76-116 | An empty list gives all zeros; a list with a startless entry cannot be rendered. Otherwise: hours = sum / 3600000; days = distinct UTC days, between 1 and the number of entries; average * days = hours; projects = distinct non-empty names. Earnings use each rate only when it is set. |
| TimeStats.DaysBounds | src/components/TimeStats.jsx:93-110 | A non-empty list has at least one and at most as many distinct days as entries, so the average never divides by zero. |
| TimeStats.ProjectsBound | src/components/TimeStats.jsx:100-102 | There are no more distinct projects than entries. |
| TimeStats.SameDayCountsOnce | src/components/TimeStats.jsx:93-97 | Two entries count as one day exactly when they start on the same UTC day. |
| TimeStats.HoursStatus | src/components/TimeStats.jsx:121-132 | Only with a truthy target: below iff total < expected, with a positive shortfall closing the gap. Above iff total > expected, with a positive excess. No status when they are equal. |
| TimeStats.DisplayedTotalIsCardText | src/components/TimeStats.jsx:109-119 | The total compared is `parseFloat` of the card text: the total rounded to hundredths. |
| TimeStats.BelowTargetExample | src/components/TimeStats.jsx:124-127 | Expecting 160 h and logging 150 h is Below(10) with the warning "10.00h below target". |
| EarningsStats.ComputeEarnings | src/components/EarningsStats.jsx:12-25 | hours = sum / 3600000; usd = hours * rate; dop = hours * rate * exchange rate; all zero for no entries. |
| EarningsStats.EarningsAdditive | src/components/EarningsStats.jsx:13-18 | The earnings of two concatenated lists are the sums of their earnings. |
| EarningsStats.AgreesWithStatsCards | src/components/EarningsStats.jsx:13-18 | With both rates non-zero, the memo computes the same hours, dollars and pesos as the statistics cards. |
| TimeEntriesList.ReadHMSOfFormat | src/components/TimeEntriesList.jsx:32-37 | For ms >= 0, reading the "HH:MM:SS" rendering back gives ms truncated to whole seconds: hours never truncated, minutes and seconds below 60. |
| TimeEntriesList.FormatHMSParts | src/components/TimeEntriesList.jsx:32-37 | For ms >= 0 the rendering is the hours, minutes and seconds of its whole seconds, each padded to two digits. |
| TimeEntriesList.FormatHMSNegativeExample | src/components/TimeEntriesList.jsx:33-36 | A negative second renders every part negative: "-1:-1:-1". |
| TimeEntriesList.RowStep | src/components/TimeEntriesList.jsx:164-175 | One callback step equals one more entry in the group-by specification. |
| TimeEntriesList.ReduceRows | src/components/TimeEntriesList.jsx:164-175 | The loop computes the specified rows. |
| TimeEntriesList.SortRows | src/components/TimeEntriesList.jsx:178-182 | Every row's entries are sorted newest first, row by row. |
| TimeEntriesList.GroupedEntries | src/components/TimeEntriesList.jsx:163-185 | The memo computes the specified grouped rows. |
| TimeEntriesList.GroupedEntriesShape | src/components/TimeEntriesList.jsx:163-185 | One row per distinct `projectId`/"no-project", in first-occurrence order. Its entries are a permutation of exactly its key's entries, newest first. Name and colour (default grey) come from the first entry. |
| TimeEntriesList.EachEntryInOneRow | src/components/TimeEntriesList.jsx:163-175 | Every entry is in its own key's row and in no other. |
| TimeEntriesList.RowsConserve | src/components/TimeEntriesList.jsx:43-97 | The rows' totals add up to the total duration and their counts to the number of entries. |
| TimeEntriesList.ElapsedMs | src/components/TimeEntriesList.jsx:190 | An entry's end minus start is NaN exactly when its start or its end is absent. A `null` end (a running timer) is the epoch, giving minus the start. |
| TimeEntriesList.CopyTotal | src/components/TimeEntriesList.jsx:189-191 | The copy total is NaN exactly when some entry's end minus start is NaN. |
| TimeEntriesList.RunningTimerTotal | src/components/TimeEntriesList.jsx:189-191 | A lone running timer adds minus its start instant to the copy total, not NaN. |
| TimeEntriesList.CopyTextLines | src/components/TimeEntriesList.jsx:188-193 | The clipboard text splits back into one line per row, in row order, when names have no newline. |
| TimeEntriesList.CopyLineMatchesRow | src/components/TimeEntriesList.jsx:188-193 | For entries timed by their interval, the copy line shows the row's time. With an entry whose start or end is absent it shows NaN. |
| DailyHoursChart.DayStep | src/components/DailyHoursChart.jsx:28-44 | One callback step equals one more entry in the day group-by specification. |
| DailyHoursChart.ReduceDays | src/components/DailyHoursChart.jsx:28-44 | The loop computes the specified day records. |
| DailyHoursChart.Details | src/components/DailyHoursChart.jsx:38-42 | One detail per entry, in order, with the "No Project"/"No Description" defaults. |
| DailyHoursChart.LookUpDay | src/components/DailyHoursChart.jsx:56 | `dailyHours[date].hours` is the hours of exactly that day's entries. |
| DailyHoursChart.BuildChart | src/components/DailyHoursChart.jsx:28-56 | The component computes the specified chart. |
| DailyHoursChart.ChartShape | src/components/DailyHoursChart.jsx:47-56 | The labels are distinct, in date order, and exactly the days of the entries. Each bar is the sum of that day's durations, in hours rounded to hundredths. |
| DailyHoursChart.DayBarIsRoundedHours | src/components/DailyHoursChart.jsx:36-56 | Rounding a day's hours as added entry by entry gives the same bar as rounding its total milliseconds. |
| DailyHoursChart.DailyHoursConserved | src/components/DailyHoursChart.jsx:28-44 | The days' hours sum to total duration / 3600000, with one detail line per entry. |
| DailyHoursChart.EmptyChart | src/components/DailyHoursChart.jsx:28-56 | No entries give no labels and no data. |
| DailyHoursChart.SameLabelOneBar | src/components/DailyHoursChart.jsx:29 | Two entries with the same year-less label make one bar whose duration is the sum of both entries' durations. |
| DailyHoursChart.FixtureChart | src/components/DailyHoursChart.test.jsx:8-20 | The test fixture, 8 h on "Mar 20" and 6 h on "Mar 21", gives bars [8, 6] in that order. |
| ProjectDistributionChart.TotalsStep | src/components/ProjectDistributionChart.jsx:21-31 | One callback step equals one more entry in the group-by specification. |
| ProjectDistributionChart.ReduceTotals | src/components/ProjectDistributionChart.jsx:21-31 | The loop computes the specified project totals. |
| ProjectDistributionChart.ProjectTotalsShape | src/components/ProjectDistributionChart.jsx:21-31 | One total per distinct name, in first-occurrence order, equal to its entries' durations; colour from the first entry, or grey. |
| ProjectDistributionChart.TotalsConserved | src/components/ProjectDistributionChart.jsx:21-31 | The project totals add up to the total duration. |
| ProjectDistributionChart.SameGroupsAsReport | src/components/ProjectDistributionChart.jsx:21-31 | The chart groups like the report's summary: the same names, order, totals and colours. |
| ProjectDistributionChart.PieOf | src/components/ProjectDistributionChart.jsx:34-39 | The labels, data and colours arrays are equally long, one slot per total. |
| ProjectDistributionChart.BuildPie | src/components/ProjectDistributionChart.jsx:21-39 | The component computes the specified pie. |
| ProjectDistributionChart.ChartShape | src/components/ProjectDistributionChart.jsx:34-39 | One slice per distinct name, in first-occurrence order. Its value is the project's hours rounded to hundredths, its colour the first entry's (or grey). |
| ProjectDistributionChart.SlicesAreProjects | src/components/ProjectDistributionChart.jsx:22-34 | A name has a slice exactly when some entry carries it. |
| ProjectDistributionChart.EmptyChart | src/components/ProjectDistributionChart.test.jsx:31-37 | No entries give no slices. |
| ProjectDistributionChart.Shares | src/components/ProjectDistributionChart.jsx:70 | One share per slice, each the slice over the sum of the slices, times 100. |
| ProjectDistributionChart.SharesAddUp | src/components/ProjectDistributionChart.jsx:70-94 | When the slices do not sum to 0, every share is a number and they add up to 100. When they do, no share is a number. |
| ProjectDistributionChart.TwoProjects | src/components/ProjectDistributionChart.jsx:21-38 | Two entries of different projects give two slices in input order, with their rounded hours. |
| ProjectDistributionChart.SharesOfRoundedHours | src/components/ProjectDistributionChart.jsx:35-70 | Shares come from the rounded values: two projects of 20 minutes each show 0.33 h and 50% apiece. |
| Entries.RoundedHoursIsRound2 | src/components/ProjectDistributionChart.jsx:35-38 | A value worked out on the integer milliseconds equals the hours rounded to hundredths, halves away from zero. |
| Entries.RoundedTotalHours | src/components/ProjectDistributionChart.jsx:35-38 | The total hours of any entries, rounded to hundredths, are their summed milliseconds rounded the same way. |
| Decimals.ParseFixed2OfFixed2 | src/components/ProjectDistributionChart.jsx:36-37 | For x >= 0, `parseFloat(x.toFixed(2))` reads back x rounded to hundredths. |
| JsValues.Round2 | src/components/DailyHoursChart.jsx:56 | `Number(x.toFixed(2))` is within half a hundredth of x, is a whole number of hundredths and keeps the sign. |
| BillingPeriods.GetBillingYear | src/config/billingPeriods.js:5-104 | `getBillingYear()` is `BILLING_YEAR`. |
| BillingPeriods.ParseDate | src/config/billingPeriods.js:21-22 | `parse(text, 'MM/dd/yyyy')` yields only existing calendar days of a year from 1 on, or Invalid Date. |
| BillingPeriods.YearZeroIsInvalid | src/config/billingPeriods.js:21-22 | "1/1/0" is Invalid Date: year 0 is rejected. |
| BillingPeriods.ParseDateText | src/config/billingPeriods.js:21-22 | Round trip: the "M/D/YYYY" text of an existing day in years 1 to 9999 parses to that day. |
| BillingPeriods.OneSlashIsInvalid | src/config/billingPeriods.js:21 | A text missing its second field is Invalid Date. |
| BillingPeriods.NoSuchDayIsInvalid | src/config/billingPeriods.js:21 | A day that does not exist in its month is Invalid Date. |
| BillingPeriods.TableDates | src/config/billingPeriods.js:21-99 | Every start and end date of the table parses to the day its template names. |
| BillingPeriods.TableShape | src/config/billingPeriods.js:16-101 | Twelve periods with distinct ids, months January to December in order, 20 to 23 billable days each. |
| BillingPeriods.IdsNameMonths | src/config/billingPeriods.js:18-95 | Each period's id names its own month. |
| BillingPeriods.StartNotAfterEnd | src/config/billingPeriods.js:21-99 | In every period the start date is on or before the end date. |
| BillingPeriods.Ascending | src/config/billingPeriods.js:21-99 | Each period starts after the previous one ends. |
| BillingPeriods.EndsBeforeLaterStarts | src/config/billingPeriods.js:21-99 | Any period ends before every later one starts. |
| BillingPeriods.NoOverlap | src/config/billingPeriods.js:21-99 | No day lies in two periods. |
| BillingPeriods.Contiguous | src/config/billingPeriods.js:21-99 | Every period but May's starts on the day after the previous one ends. |
| BillingPeriods.AprilGap | src/config/billingPeriods.js:43-49 | April's and May's periods are not contiguous. The two days between them are a Saturday and a Sunday. |
| BillingPeriods.YearWraps | src/config/billingPeriods.js:21-99 | December's period ends the day before 27 December of `BILLING_YEAR`, where the next year's January period would start. |
| BillingPeriods.YearBounds | src/config/billingPeriods.js:21-99 | January starts on 27 December of `BILLING_YEAR - 1`; every other date is in `BILLING_YEAR`. |
| BillingPeriods.ExpectedHours | src/App.jsx:357-360 | The expected hours are eight per billable day. |
| BillingPeriods.TargetsInRange | src/config/billingPeriods.js:20-97 | Every period's target is 160 to 184 hours. |
| BillingPeriods.BillableDaysAreWeekdays | src/config/billingPeriods.js:17-100 | Every period's `billableDays` is the number of Monday-to-Friday days from its start to its end, both included. |
| BillingPeriods.FirstDayIsFriday | src/config/billingPeriods.js:21 | 27 December 2024 was a Friday. |
| BillingPeriods.NextDayNumber | src/config/billingPeriods.js:21-99 | The calendar behind the table: the day after a day has the next day number. |
| BillingPeriods.CountWeekdaysClosed | src/config/billingPeriods.js:20-97 | A count of weekdays over a span is the difference of two closed forms. |

## Left out

- The HTTP client is not modelled: `makeRequest`, `getUserInfo`, `getWorkspace`,
  `getProjects` and the fetches in `getTimeEntries`. The fetched project list and raw
  entries are inputs of `Enrichment.GetTimeEntries` and `Report.DownloadReport`.
- jsPDF and jspdf-autotable drawing is not modelled: fonts, colours, coordinates, text
  centring, `doc.save`.
  - Autotable's `finalY` is given by the parameters `summaryTableEnd` and `dayTableEnd`.
    Each maps a table's start position and its content to where it ends.
  - Pages that autotable adds itself when a table overflows are not counted: the page
    count is 3 plus the explicit breaks.
- Date-fns `format` and `new Date(label)` ordering are parameters. So is the clock the
  footer loop reads: `clock(i)` is the time formatted while page i is stamped. Time
  zones, locales and JavaScript's parsing of year-less labels are therefore not modelled.
- Report.GeneratePdfReport: the hours and percentage cells keep their exact values, not
  the `toFixed(2)`/`toFixed(1)` strings. The closing page's "Total Hours" and "Average
  Hours per Day" lines also keep exact values rather than their `toFixed(2)` text. The
  `MMM d, yyyy` date-range lines are not modelled.
- ProjectDistributionChart.Shares: the share is exact; the `toFixed(1)` of the legend and
  tooltip text, and the rest of that text, are not modelled.
- Decimals.ParseFixed2: reads only the `digits.dd` form that `toFixed(2)` produces for
  non-negative numbers. It is not a general `parseFloat`.
- TimeStats.CalculateStats: with an entry lacking a start, the source throws while
  rendering. With no `timeInterval` this is a `TypeError`. With an absent start,
  `toISOString` of the invalid date throws a `RangeError` ("Invalid time value"). The
  model returns `None` and does not model the error text.
- TimeStats.CalculateStats: rates are real numbers. A rate stored as text in local
  storage is not modelled.
- Local storage, the profile form, the React components' markup, theme and state
  handling are not modelled.
- TimeEntriesList.GroupedEntries, DailyHoursChart.BuildChart: require every entry to have
  a start. For one that does not, the source sorts by `NaN` and then `format` throws a
  `RangeError`, or it throws a `TypeError` when `timeInterval` is missing. The model does
  not follow it there.
- Report.GroupByDate, Report.GeneratePdfReport, TimeStats.CalculateStats,
  TimeEntriesList.ElapsedMs, TimeEntriesList.GroupedEntries, DailyHoursChart.BuildChart:
  a `null` `timeInterval.start` is treated like an absent one. In the source
  `new Date(null)` is the epoch (instant 0), so such an entry does not fail:
  - the report files it under 1 January 1970;
  - the stats count the day "1970-01-01";
  - the copy's end minus start is the end minus 0;
  - the list and the chart sort it at instant 0 and label it "Jan 1" (in UTC).
- TimeEntriesList.CopyTotal: an entry with no `timeInterval` counts as NaN. The source's
  copy handler throws a `TypeError` there and copies nothing. The list cannot render such
  an entry in the first place, since sorting it reads its start.
- Object key order is insertion order. JavaScript lists integer-like keys (a project
  named "2024") first; that is not modelled.
- Report.GroupByProject, ProjectDistributionChart.ReduceTotals, TimeEntriesList.ReduceRows:
  every new key opens a fresh group. In the source the groups are a plain object, so a
  project named like an inherited property ("constructor", "toString") finds a truthy
  value that is not a group. The report and the entry list then throw at
  `.entries.push`, and the pie chart adds to that property and loses the slice. Day
  labels ("MMM d") cannot collide this way.
- BillingPeriods.ParseDate: the date-fns parse is reduced to the form the table uses:
  - one or two digit month and day, and a one to four digit year;
  - the year must be at least 1, as date-fns' year parser demands.
  - the time of day and the reference date play no part.
- BillingPeriods.Periods: the ids are the literal strings "jan-2025" to "dec-2025" and do
  not follow `BILLING_YEAR`, as in the source.
- BillingPeriods.BillableDaysAreWeekdays: counts Monday to Friday only. Public holidays
  are not part of the table or of the count.
- Floating point is not modelled: hours are exact reals and durations unbounded integers.
