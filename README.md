# timespent, modelled in Dafny

timespent reads a plain-text journal of working time. Each line is one
activity: `12h00-13h00: [review][tag2][tag3] description`. The times
are read on the day given by the line's date heading. The bracketed tags
are either one of five actions (review, meeting, research, code, docs)
or a project name. The rest of the line is the description.

From a list of activities the crate computes:

- per-day and whole-period minute totals (`aggregate`, `over_specific_days`);
- the dates, projects and actions a list spans (`Filter::new`), and the sublist a filter keeps;
- the x-axis of a chart: for each scale (day, ISO week, month, year, all) the run of segments covering a date range, with an index from a date key to a segment position;
- the y-axis: minutes per segment in total, per action and per project;
- the `Graph` that bundles these for the user interface, and recomputes them when a filter is applied.

Two TypeScript helpers of the desktop front ends are modelled too:

- `stringToColor`: a tag's colour, from the sum of its code units;
- `displayedXLabels`: the date part of each segment's start.

Modules:

| file | module | models |
|---|---|---|
| `activity.dfy` | `Activities` | `Action`, `Type`, `Activity` and their `from_str` |
| `parser.dfy` | `Parser` | `parse_activity`, as a function on strings with nom's outcomes (done, incomplete, error) |
| `aggregates.dfy` | `Aggregation` | `aggregate` and `over_specific_days` |
| `filter.dfy` | `Filters` | `Filter::new` and `Filterable::filter` |
| `scale.dfy` | `Scales` | `Scale`, its iterator and `naive_date_to_scale_x` |
| `x_segments.dfy` | `XSegments` | `XSegment`, its `Display`, and `ScaleXSegments` (`new`, `build_index`, `filter_by_date`, `find_correponding_x_segment_idx`) |
| `y_activities.dfy` | `GraphSeries` | `YActivities::new` |
| `ui.dfy` | `GraphUi` | `Graph::new` and `Graph::apply_filter` |
| `string_to_color.dfy` | `Colors` | `stringToColor` and `stringToHslColor` |
| `display.dfy` | `Labels` | `displayedXLabels` |
| `calendar.dfy` | `Calendar` | the proleptic Gregorian calendar and ISO weeks that chrono provides |
| `text.dfy`, `options.dfy` | `Text`, `Options` | decimal and padded number texts, whitespace, `Option`/`Result` |

Dates are day numbers. Date-times are minute numbers: midnight of day `d`
is `d * 1440`. Seconds never occur in the crate: every time is read as
`HHhMM` or built at midnight.

Where the code loops or updates state, the model does too:

- the filling loop of `over_specific_days`;
- the fold and the sort of `aggregate`;
- the day loop of `ScaleXSegments::new`;
- the cursor sweep of `YActivities::new`;
- the tag loop of `parse_activity`;
- the code-unit loop of `stringToHslColor`;
- the fields of `Graph`.

Each of these is a method proved equal to a specification function.
Lemmas state the properties of that function.

## Model

| member | source | states |
|---|---|---|
| Activities.ActionFromStr | timespent/src/activity.rs:21-30 | an accepted word is the action's own lower-case name |
| Activities.ActionFromStrAccepts | timespent/src/activity.rs:21-30 | `from_str` succeeds exactly on the five action words |
| Activities.ActionWordRoundTrip | timespent/src/activity.rs:21-30 | reading an action's word gives back that action |
| Activities.ActionWordInjective | timespent/src/activity.rs:10-16 | distinct actions have distinct words |
| Activities.ActionFromStrExamples | timespent/src/activity.rs:76-83 | "other", a capitalised word and the empty text are refused; "docs" is `Docs` |
| Activities.TypeFromStr | timespent/src/activity.rs:42-47 | `Type::from_str` never fails |
| Activities.TypeFromStrAgrees | timespent/src/activity.rs:42-47 | an action word gives that action; any other text gives a project of the same text (tests at lines 86-105) |
| Parser.Moment | timespent/src/parser.rs:18-21 | a `%Y.%m.%d %Hh%M` reading exists iff the date is a calendar date and the hour and minute are in range; it falls on that date |
| Parser.ReadDateTime | timespent/src/parser.rs:18-21 | a padded day text followed by a padded `HHhMM` reads as that moment |
| Parser.MomentValue | timespent/src/parser.rs:18-21 | the moment is midnight of the date plus the hour and the minute |
| Parser.ParsedOnDay | timespent/src/parser.rs:18-21 | any successful reading falls on the day of the date text |
| Parser.TimeToken | timespent/src/parser.rs:15-23 | defines a time: after any whitespace exactly five characters, trimmed and read on the date, then any whitespace; too short is incomplete, unreadable a `map_res` error |
| Parser.Separator | timespent/src/parser.rs:25 | defines a separator: the given character between any whitespace; nothing left is incomplete, another character a `char` error |
| Parser.Tag | timespent/src/parser.rs:39-41 | defines one tag: `[` between whitespace, the text up to the first `]`, then `]` and whitespace; it consumes input when it succeeds |
| Parser.Tags | timespent/src/parser.rs:38-42 | defines `many0` of a tag: stops before the first tag that fails with an error, and passes an incomplete input on |
| Parser.ParseActivitySpec | timespent/src/parser.rs:14-67 | defines `parse_activity`: both times, the separators and the tags, then the trimmed rest as description and the tags classified; the first failure is the result |
| Parser.TimeTextReadsAs | timespent/src/parser.rs:15-23 | every valid `HHhMM` token reads as that time of the day |
| Parser.ReadTimeToken | timespent/src/parser.rs:15-23 | whitespace, then a five-character token that reads, gives the time and the rest after any whitespace |
| Parser.BadTime | timespent/src/parser.rs:15-23 | a five-character token that does not read fails the line with a `map_res` error |
| Parser.ShortInput | timespent/src/parser.rs:16 | fewer than five characters is an incomplete input |
| Parser.ReadSeparator | timespent/src/parser.rs:25 | the expected separator between whitespace is consumed with the whitespace after it |
| Parser.SeparatorMissing | timespent/src/parser.rs:25 | any other non-blank character is a `char` error |
| Parser.MissingDash | timespent/src/parser.rs:15-25 | a line whose start time is followed by anything but `-` fails with a `char` error |
| Parser.MissingColon | timespent/src/parser.rs:15-36 | a line whose end time is followed by anything but `:` fails with a `char` error |
| Parser.ReadLine | timespent/src/parser.rs:15-36 | start, dash, end and colon are read through any whitespace between them |
| Parser.ReadTag | timespent/src/parser.rs:38-42 | `[body]` gives the body without its leading whitespace, and the rest after any whitespace |
| Parser.TagAbsorbs | timespent/src/parser.rs:39 | whitespace before a tag changes nothing |
| Parser.TagsStop | timespent/src/parser.rs:38-42 | the tags stop at the first non-blank character that is not `[` |
| Parser.TagsCons | timespent/src/parser.rs:38-42 | a read tag is the first of the tags read after it |
| Parser.TagsOfMultispace | timespent/src/parser.rs:38-42 | only whitespace after the colon is an incomplete input |
| Parser.TagsUnclosed | timespent/src/parser.rs:40 | a tag with no closing `]` is an incomplete input |
| Parser.TagsIncompleteAfter | timespent/src/parser.rs:38-42 | any number of closed tags in front of an input the tags find incomplete leave it incomplete |
| Parser.TagsThenEnd | timespent/src/parser.rs:38-42 | any number of closed tags (none included) followed by nothing but whitespace are an incomplete input |
| Parser.ReadTags | timespent/src/parser.rs:38-42 | a well-formed sequence of tags yields each body and stops before the description |
| Parser.TagActionsMembers | timespent/src/parser.rs:46-55 | an action is collected iff some trimmed tag is its word |
| Parser.TagProjectsMembers | timespent/src/parser.rs:46-55 | a project is collected iff some trimmed tag is that text and no action word |
| Parser.ClassifyTags | timespent/src/parser.rs:46-55 | the tag loop yields exactly the collected projects and actions |
| Parser.ParseActivity | timespent/src/parser.rs:14-67 | the imperative parser agrees with the specification on every input, failures included |
| Parser.LineFails | timespent/src/parser.rs:14-42 | a failure before the description is the failure of the whole line |
| Parser.ReadActivity | timespent/src/parser.rs:14-67 | any well-formed line gives both times, the trimmed description and the classified tags, and hands back the untrimmed rest |
| Parser.ThreeTagLine | timespent/src/parser.rs:14-67 | a line laid out as in the tests, `a-b: [x][y][z] desc`, gives both times, the three tags classified and the description |
| Parser.UnclosedTag | timespent/src/parser.rs:14-42 | a line whose tags, after any number of closed ones, end in a tag that is never closed is incomplete |
| Parser.NoDescription | timespent/src/parser.rs:14-44 | a line with any number of closed tags (none included) and nothing but whitespace after them is incomplete |
| Parser.UsualCase | timespent/src/parser.rs:115-119 | the usual line gives action `Review`, projects `tag2` and `tag3`, and the description |
| Parser.DashInTag | timespent/src/parser.rs:145-149 | a dashed tag is a project, and no action is collected |
| Parser.SpacesInDescription | timespent/src/parser.rs:150-154 | the description is trimmed; the returned rest keeps its trailing space |
| Aggregation.MinutesBy | timespent/src/aggregates.rs:108-122 | defines minutes per tag: one key per tag some activity carries, each the minutes of the activities carrying it |
| Aggregation.DailyOf | timespent/src/aggregates.rs:90-122 | defines a day's aggregate: total, per-project and per-action minutes of the activities starting that day |
| Aggregation.AllOf | timespent/src/aggregates.rs:100-122 | defines the period aggregate: total, per-project and per-action minutes of the whole list |
| Aggregation.DayTable | timespent/src/aggregates.rs:80-126 | defines the fold's table: each activity bumps the entry of its start day, created empty when missing |
| Aggregation.Fill | timespent/src/aggregates.rs:44-65 | defines the filling of `over_specific_days`: for each day the aggregated entry under the cursor when its day matches, else a zero day |
| Aggregation.On | timespent/src/aggregates.rs:90-98 | the activities of a day are exactly those starting on it |
| Aggregation.MinutesBySnoc | timespent/src/aggregates.rs:108-122 | one more activity adds its duration to each of its projects (or actions) |
| Aggregation.MinutesWithUnseen | timespent/src/aggregates.rs:108-122 | a key no activity carries has no minutes |
| Aggregation.AllOfSnoc | timespent/src/aggregates.rs:100-122 | the period aggregate grows by each activity's duration and tags |
| Aggregation.DailyOfSnoc | timespent/src/aggregates.rs:90-122 | a day's aggregate grows only when the new activity starts on that day |
| Aggregation.DailyOfAbsent | timespent/src/aggregates.rs:90-98 | a day without activities has the zero aggregate |
| Aggregation.DayTableMeaning | timespent/src/aggregates.rs:80-126 | the fold's table holds exactly the days with activities, each with its aggregate |
| Aggregation.AddMinutes | timespent/src/aggregates.rs:108-122 | the loop over a set of keys adds the duration to each one |
| Aggregation.FoldStep | timespent/src/aggregates.rs:89-125 | one step of the fold updates the table and the period aggregate |
| Aggregation.AggregateStep | timespent/src/aggregates.rs:89-125 | one step of the fold is the aggregate of one more activity |
| Aggregation.SortByDay | timespent/src/aggregates.rs:128-133 | the daily list is strictly by day and holds every table entry once |
| Aggregation.Aggregate | timespent/src/aggregates.rs:79-136 | period aggregate; daily list strictly by day, one entry per day with activities, each that day's aggregate |
| Aggregation.DailyTotalsAddUp | timespent/src/aggregates.rs:79-136 | the daily totals add up to the period total |
| Aggregation.TotalAppend | timespent/src/aggregates.rs:100-106 | total minutes add over concatenation |
| Aggregation.SumTotalsDays | timespent/src/aggregates.rs:128-133 | the sum of daily totals is the minutes of the activities on those days |
| Aggregation.FillDays | timespent/src/aggregates.rs:44-65 | the filled list has one entry per day of the range, in day order |
| Aggregation.OverSpecificDays | timespent/src/aggregates.rs:32-71 | a reversed range gives nothing and a zero total; otherwise one entry per day from start to end, and the period total unchanged |
| Aggregation.DayEntryBefore | timespent/src/aggregates.rs:55-61 | a day before the next aggregated one gets a zero entry |
| Aggregation.FillFinds | timespent/src/aggregates.rs:49-65 | each filled entry is the aggregated entry of its day, or zero |
| Aggregation.DayEntryOfTable | timespent/src/aggregates.rs:49-65 | over an aggregate's daily list the entry found is that day's aggregate |
| Aggregation.OverAggregate | timespent/src/aggregates.rs:32-71 | over `aggregate`'s output starting no later than its first day, entry i is the aggregate of day start+i |
| Aggregation.FillStuck | timespent/src/aggregates.rs:49-65 | once the cursor rests on an earlier day, every remaining entry is zero |
| Aggregation.EarlyFirstEntry | timespent/src/aggregates.rs:49-65 | if the first aggregated day is before the range, every entry is zero |
| Aggregation.ExampleTotals | timespent/src/aggregates.rs:177-203 | the two-activity example: 121 minutes, tag2 and tag3, code 60, review 61 |
| Aggregation.ExampleDays | timespent/src/aggregates.rs:177-203 | the example's two days and their entries |
| Aggregation.DayOfOne | timespent/src/aggregates.rs:90-122 | a day with one activity has that activity's duration and tags |
| Aggregation.ExampleOverDays | timespent/src/aggregates.rs:205-245 | two entries three days apart are filled with two zero days between them |
| Filters.FoldSpan | timespent/src/filter.rs:19-34 | defines the fold of `Filter::new`: least start, greatest end, unions of projects and actions |
| Filters.NewFilter | timespent/src/filter.rs:18-43 | defines `Filter::new`: the fold started from the first activity, the dates of its bounds, an empty text |
| Filters.Matches | timespent/src/filter.rs:54-60 | defines the test of `filter`: start date not before the minimum, end date not after the maximum, the text in the description, projects and actions allowed |
| Filters.FoldSpanMeaning | timespent/src/filter.rs:19-34 | the fold gives the least start, the greatest end, and the unions of the projects and actions |
| Filters.NewFilterMeaning | timespent/src/filter.rs:18-43 | the date range is from the earliest start's date to the latest end's date (or the first start's); the text is empty; every project and action seen |
| Filters.FilterActs | timespent/src/filter.rs:51-64 | the kept activities are exactly those the filter matches, in order |
| Filters.FilterAppend | timespent/src/filter.rs:51-64 | filtering distributes over concatenation |
| Filters.FilterKeepsAll | timespent/src/filter.rs:51-64 | a filter every activity matches keeps the list whole |
| Filters.FilterIdempotent | timespent/src/filter.rs:51-64 | filtering twice is filtering once |
| Filters.MatchesVacuous | timespent/src/filter.rs:54-60 | an untagged activity with an empty text filter is kept iff it is within the dates |
| Filters.NewFilterKeepsAll | timespent/src/filter.rs:74-111 | the filter built from a list keeps the whole list |
| Scales.RankInjective | timespent/src/graph/scale.rs:7-13 | the five scales are distinct |
| Scales.Iterator | timespent/src/graph/scale.rs:16-26 | the iterator lists each scale once, day to all |
| Scales.ScaleLabel | timespent/src/graph/scale.rs:29-37 | defines `naive_date_to_scale_x`: the ISO date, year-week, year-month, year, or `all` |
| Scales.YearText | timespent/src/graph/scale.rs:31 | defines the year in a date's text: four digits for 0 to 9999, otherwise signed |
| Scales.DateText | timespent/src/graph/scale.rs:31 | defines `NaiveDate::to_string`: year text, two-digit month, two-digit day |
| Scales.DayLabelIdentifies | timespent/src/graph/scale.rs:31 | two dates have the same day label iff they are equal |
| Scales.WeekLabelIdentifies | timespent/src/graph/scale.rs:32 | same week label iff same calendar year and same ISO week number |
| Scales.MonthLabelIdentifies | timespent/src/graph/scale.rs:33 | same month label iff same year and month |
| Scales.YearLabelIdentifies | timespent/src/graph/scale.rs:34 | same year label iff same year |
| Scales.MonthLabelBucket | timespent/src/graph/scale.rs:33 | every day of a month has the month's label |
| Scales.YearLabelBucket | timespent/src/graph/scale.rs:34 | every day of a year has the year's label |
| Scales.WeekLabelSplitsWeek | timespent/src/graph/scale.rs:32 | the days of one ISO week on either side of New Year get different week labels |
| Scales.DateTextInjective | timespent/src/graph/scale.rs:31 | the ISO date text identifies the date, negative and five-digit years included |
| Scales.YearTextShape | timespent/src/graph/scale.rs:31 | a year text starts with a digit, `+` or `-` exactly as the year is four-digit, larger or negative |
| XSegments.Display | timespent/src/graph/x_segments.rs:17-39 | defines `Display`: the start date as a day, year and ISO week, year and month, or year, and `all` |
| XSegments.DisplayExamples | timespent/src/graph/x_segments.rs:303-387 | a segment of 2022-03-14 displays as 2022-03-14, 2022-w11, 2022-03, 2022 and all |
| XSegments.DisplayDayIdentifies | timespent/src/graph/x_segments.rs:18-24 | day segments display alike iff they start on the same date |
| XSegments.SegmentOf | timespent/src/graph/x_segments.rs:77-152 | defines the segment of a day at each periodic scale: the day, its Monday-to-Monday week, its month, its year |
| XSegments.WeekSegment | timespent/src/graph/x_segments.rs:90-109 | the week segment runs from the ISO week's Monday to the midnight after its Sunday |
| XSegments.MonthSegment | timespent/src/graph/x_segments.rs:116-135 | the month segment runs from the first of the month to the first of the next |
| XSegments.YearSegment | timespent/src/graph/x_segments.rs:142-152 | the year segment runs from 1 January to the next 1 January |
| XSegments.Holds | timespent/src/graph/x_segments.rs:77-152 | every day lies inside its segment at each periodic scale |
| XSegments.SegmentAdvances | timespent/src/graph/x_segments.rs:84-157 | the next day's segment is the same one or starts where this one ends |
| XSegments.Segs | timespent/src/graph/x_segments.rs:73-158 | defines the run: the days' segments in day order, each pushed unless it repeats the last one |
| XSegments.SegsEnds | timespent/src/graph/x_segments.rs:73-158 | a run is empty iff the range is; it starts with the first day's segment and ends with the last day's |
| XSegments.SegsChained | timespent/src/graph/x_segments.rs:84-157 | consecutive pushed segments abut, without repeats |
| XSegments.ChainedIncreasing | timespent/src/graph/x_segments.rs:84-157 | a chained run starts strictly later at each position |
| XSegments.SegsCover | timespent/src/graph/x_segments.rs:73-158 | the segment of every day of the range is in the run |
| XSegments.SegsSound | timespent/src/graph/x_segments.rs:73-158 | every segment of the run is the segment of some day of the range |
| XSegments.DaySegs | timespent/src/graph/x_segments.rs:77-88 | the day run has one midnight-to-midnight segment per day |
| XSegments.PushDay | timespent/src/graph/x_segments.rs:77-88 | one loop step extends the day run by the current day |
| XSegments.PushWeek | timespent/src/graph/x_segments.rs:90-114 | one loop step extends the week run by the current day |
| XSegments.PushMonth | timespent/src/graph/x_segments.rs:116-140 | one loop step extends the month run by the current day |
| XSegments.PushYear | timespent/src/graph/x_segments.rs:142-157 | one loop step extends the year run by the current day |
| XSegments.PushSegment | timespent/src/graph/x_segments.rs:84-88 | a segment is pushed iff it differs from the last one |
| XSegments.VisitDays | timespent/src/graph/x_segments.rs:67-158 | the day loop builds the four runs of the range |
| XSegments.NewValues | timespent/src/graph/x_segments.rs:51-170 | defines the segments of `new`: the run of each periodic scale and one `all` segment over the range |
| XSegments.New | timespent/src/graph/x_segments.rs:51-170 | `new` gives the five runs and the index built from them |
| XSegments.NewValuesMeaning | timespent/src/graph/x_segments.rs:51-170 | five scales; all is one segment over the range; each periodic scale is its run, empty for a reversed range |
| XSegments.PeriodicChained | timespent/src/graph/x_segments.rs:84-157 | every periodic run is chained |
| XSegments.NewShape | timespent/src/graph/x_segments.rs:51-170 | a periodic run goes from the first day's segment to the last day's |
| XSegments.NewSpan | timespent/src/graph/x_segments.rs:51-170 | a periodic run covers the range from its first midnight to the midnight after its last day |
| XSegments.NewReaches | timespent/src/graph/x_segments.rs:51-170 | every scale's run is non-empty, chained and covers the range |
| XSegments.NewAcrossYearEnd | timespent/src/graph/x_segments.rs:390-540 | for 2022-12-31 to 2023-01-02: three days, the weeks of 2022-12-26 and 2023-01-02, December and January, 2022 and 2023, and one `all` segment, as the test expects |
| XSegments.NewCovers | timespent/src/graph/x_segments.rs:51-170 | a segment is in a periodic run iff it is the segment of a day of the range |
| XSegments.DateKey | timespent/src/graph/x_segments.rs:176-199 | defines the index key of a date: the ISO date, year and ISO week run together, year and month run together, or the year |
| XSegments.IndexBy | timespent/src/graph/x_segments.rs:172-230 | defines one scale's index: each segment's key to its position, a later position winning |
| XSegments.BuildIndex | timespent/src/graph/x_segments.rs:172-230 | defines `build_index`: the index of each periodic scale |
| XSegments.FindIndex | timespent/src/graph/x_segments.rs:255-295 | defines `find_correponding_x_segment_idx`: the indexed position of the date-time's key, 0 when absent and for `all` |
| XSegments.IndexByMeaning | timespent/src/graph/x_segments.rs:172-230 | a key is indexed iff some segment has it; it maps to the last position with that key |
| XSegments.IndexByDistinct | timespent/src/graph/x_segments.rs:172-230 | with distinct keys each position is found under its own key |
| XSegments.LookupMisses | timespent/src/graph/x_segments.rs:263-275 | a key no segment has is absent from the index |
| XSegments.FindIndexReads | timespent/src/graph/x_segments.rs:255-295 | the lookup is the indexed position of the date-time's key, or 0 when absent |
| XSegments.FindIndexAll | timespent/src/graph/x_segments.rs:293 | for all, position 0 holds every date-time of the range |
| XSegments.ScaleLookup | timespent/src/graph/x_segments.rs:172-230 | day, month and year keys find the segment of each day of the range |
| XSegments.PeriodicLookupable | timespent/src/graph/x_segments.rs:172-230 | day, month and year runs have one key per segment, matching `find`'s keys |
| XSegments.FindIndexHits | timespent/src/graph/x_segments.rs:255-295 | at day, month and year scales, lookup returns the segment that holds the date-time |
| XSegments.WeekKeyMismatch | timespent/src/graph/x_segments.rs:195-196 | where a week's Monday is in another calendar year, the date-time's week key differs from its segment's key |
| XSegments.WeekLookupAcrossNewYear | timespent/src/graph/x_segments.rs:269-275 | over 2024-12-23 to 2025-01-05, a date-time on 2025-01-01 is sent to segment 0, which does not hold it |
| XSegments.FixedFindIndexHits | timespent/src/graph/x_segments.rs:255-295 | with the week keyed by its ISO year, lookup returns the holding segment at every periodic scale |
| XSegments.FixedAgrees | timespent/src/graph/x_segments.rs:255-295 | the corrected lookup is unchanged except at the week scale |
| XSegments.KeepAll | timespent/src/graph/x_segments.rs:232-253 | defines the segments `filter_by_date` keeps at every scale |
| XSegments.KeepWithin | timespent/src/graph/x_segments.rs:237-243 | a segment is kept iff it starts on or after the first date and ends before the last date |
| XSegments.KeepSegments | timespent/src/graph/x_segments.rs:236-243 | the segment loop keeps exactly those, in order |
| XSegments.KeepScales | timespent/src/graph/x_segments.rs:235-245 | every scale is filtered alike |
| XSegments.FilterByDate | timespent/src/graph/x_segments.rs:232-253 | the filtered runs and the index rebuilt from them |
| XSegments.KeepWithinAppend | timespent/src/graph/x_segments.rs:237-243 | filtering distributes over concatenation |
| XSegments.KeepWithinIdempotent | timespent/src/graph/x_segments.rs:237-243 | filtering twice is filtering once |
| XSegments.FilterDays | timespent/src/graph/x_segments.rs:238-239 | a day segment survives iff its day is in the run, on or after the first date, and before the day before the last date |
| GraphSeries.Spec | timespent/src/graph/y_activities.rs:18-106 | defines what `YActivities::new` computes: per scale, the total, per-action and per-project series of the placed activities |
| GraphSeries.ZeroSeries | timespent/src/graph/y_activities.rs:25-57 | every series starts as zeros, one per segment |
| GraphSeries.Advance | timespent/src/graph/y_activities.rs:67-71 | the cursor stops at the first segment from its place that ends after the start |
| GraphSeries.Cursor | timespent/src/graph/y_activities.rs:59-71 | after the first activity the cursor's segment ends after the last start |
| GraphSeries.Series | timespent/src/graph/y_activities.rs:63-99 | one value per segment |
| GraphSeries.SeriesSum | timespent/src/graph/y_activities.rs:75-97 | a series adds up to the minutes of the activities it counts |
| GraphSeries.SingleSegment | timespent/src/graph/y_activities.rs:63-99 | with one segment the series is the total |
| GraphSeries.TotalByActions | timespent/src/graph/y_activities.rs:81-88 | each column's total is the sum of its per-action values |
| GraphSeries.CursorMonotone | timespent/src/graph/y_activities.rs:67-71 | the cursor never moves back |
| GraphSeries.AdvanceFrom | timespent/src/graph/y_activities.rs:67-71 | starting the search at the cursor finds what a search from 0 finds |
| GraphSeries.PlacedFirst | timespent/src/graph/y_activities.rs:63-99 | for activities sorted by start, each goes to the first segment ending after its start |
| GraphSeries.PlacedInside | timespent/src/graph/y_activities.rs:63-99 | over chained segments, each sorted activity goes to the segment that holds its start |
| GraphSeries.AdvanceCursor | timespent/src/graph/y_activities.rs:67-71 | the while loop moves the cursor as `Advance` says |
| GraphSeries.CreditProjects | timespent/src/graph/y_activities.rs:91-97 | each of the activity's projects gets the duration at the cursor; other series are unchanged |
| GraphSeries.PlaceAt | timespent/src/graph/y_activities.rs:65-98 | one scale's step keeps the column equal to its specification |
| GraphSeries.Place | timespent/src/graph/y_activities.rs:63-99 | one activity keeps every scale's column equal to its specification |
| GraphSeries.Init | timespent/src/graph/y_activities.rs:25-60 | zero series for every scale, action and project, cursors at 0 |
| GraphSeries.New | timespent/src/graph/y_activities.rs:18-106 | `new` gives, at every scale, the specified total, per-action and per-project series |
| GraphSeries.SpecEntries | timespent/src/graph/y_activities.rs:18-106 | the result has every scale, and exactly the given actions and projects |
| GraphSeries.ExampleSeries | timespent/src/graph/y_activities.rs:133-206 | the worked example: day [60,0,0,60], week [60,60], month, year and all [120], and the per-action and per-project day series |
| GraphSeries.ExampleValues | timespent/src/graph/y_activities.rs:154 | the segments of 2022-07-22 to 2022-07-25 are four days, two weeks, and one month, year and all |
| GraphUi.Sound | timespent/src/graph/ui.rs:32-82 | defines what the model assumes of `aggregate_all` and `filter`: the aggregate covers its list, and the filter keeps only activities dated in its range |
| GraphUi.Initial | timespent/src/graph/ui.rs:32-60 | defines the state `Graph::new` builds: the list, its aggregate, the aggregate's filter, and segments and series over its range |
| GraphUi.Filtered | timespent/src/graph/ui.rs:62-82 | defines the state `apply_filter` builds: the filtered list's aggregate, the filter, and segments and series over the filter's range |
| GraphUi.Graph.constructor | timespent/src/graph/ui.rs:32-60 | the graph holds the list, its aggregate, the aggregate's filter, and segments and series over that range |
| GraphUi.Graph.ApplyFilter | timespent/src/graph/ui.rs:62-82 | the new state depends only on the full list and the filter |
| GraphUi.DatedFits | timespent/src/graph/ui.rs:44-51 | activities dated in the range fit the segments `new` builds for it |
| GraphUi.FilterForgets | timespent/src/graph/ui.rs:62-82 | filtering keeps the full list, and an earlier filter leaves no trace |
| GraphUi.FilteredSpan | timespent/src/graph/ui.rs:74-75 | each scale of a filtered graph spans the filter's range |
| GraphUi.FilteredMinutes | timespent/src/graph/ui.rs:62-82 | each scale's series add up to the kept activities' minutes: in total, per action and per project |
| GraphUi.NewGraphExample | timespent/src/graph/ui.rs:91-137 | the example graph's filter, segments and series |
| Colors.Sum | taurikit/src/lib/stringToColor.ts:18-21 | defines the sum of the code units, at most 0xFFFF per unit |
| Colors.HslText | taurikit/src/lib/stringToColor.ts:24 | defines the colour text `hsl(h, s%, l%)` |
| Colors.Total | taurikit/src/lib/stringToColor.ts:18-21 | the loop sums the code units |
| Colors.Hue | taurikit/src/lib/stringToColor.ts:23 | the hue is below 360 |
| Colors.StringToHslColor | taurikit/src/lib/stringToColor.ts:17-25 | the text is `hsl(h, s%, l%)` with the hue of the string |
| Colors.StringToColor | taurikit/src/lib/stringToColor.ts:1-15 | saturation 50 and lightness 60 |
| Colors.EmptyColor | taurikit/src/lib/stringToColor.ts:17-25 | the empty string is `hsl(0, 50%, 60%)` |
| Colors.SumAppend | taurikit/src/lib/stringToColor.ts:18-21 | the sum adds over concatenation |
| Colors.HueAppend | taurikit/src/lib/stringToColor.ts:23 | the hue of a concatenation is the sum of the hues modulo 360 |
| Colors.PermutationSameColor | taurikit/src/lib/stringToColor.ts:17-25 | strings with the same characters in any order get the same colour |
| Colors.SameColorSameHue | taurikit/src/lib/stringToColor.ts:24 | two colour texts are equal iff their hues are |
| Labels.BeforeT | timespent-taurikit/src/lib/display.ts:4 | the label is the longest prefix without `T` |
| Labels.BeforeTUnique | timespent-taurikit/src/lib/display.ts:4 | any prefix without `T` that stops at a `T` or the end is that label |
| Labels.BeforeTJoin | timespent-taurikit/src/lib/display.ts:4 | the label of `p T q` is `p` |
| Labels.DisplayedXLabels | timespent-taurikit/src/lib/display.ts:3-5 | one label per segment, each that segment's start before `T` |
| Labels.LabelsPrefix | timespent-taurikit/src/lib/display.ts:3-5 | labelling distributes over concatenation |
| Labels.StartLabel | timespent-taurikit/src/lib/display.ts:4 | a serialised start's label is its ISO date |
| Labels.SegmentLabels | timespent-taurikit/src/lib/display.ts:3-5 | the labels of serialised segments are their start dates |
| Labels.DayLabel | timespent-taurikit/src/lib/display.ts:4 | for a day segment of a four-digit year, the label is what `Display` prints |

## Left out

- I/O is not part of this model: the loader that splits the journal into date headings and lines, `lib.rs`, fakegen and the benches. The Tauri commands, stores and `main` files are not part of it either.
- `serde` and `ts_rs` derives are left out, except the date-time text of a serialised `XSegment`. `Labels` models that text as chrono's `%Y-%m-%dT%H:%M:%S`.
- chrono is modelled by `Calendar`: a proleptic Gregorian calendar on day numbers, with ISO weeks. Leap seconds and time zones do not occur. Date-times have minute resolution, which is all the crate ever builds.
- GraphUi.Graph.constructor: `aggregate_all` and the five-argument `filter` that `Graph` calls are not part of this model. They are a parameter, `ListOps`, with two assumptions stated as `Sound`: the aggregate covers the dates, actions and projects of its list, and the filter keeps only activities dated in its range.
- GraphUi.Graph.ApplyFilter: the same `ListOps` parameter and the same `Sound` assumption.
- GraphUi.Sound: asks the filter to keep only activities whose start date is in its range. `filter` (timespent/src/filter.rs:52-62) compares the start date with the minimum and the end date with the maximum. The two agree unless an activity ends before it starts, which the parser allows; `Sound` excludes that case.
- There are two `Activity` shapes. `Activities.Activity` carries a set of actions, as `activity.rs` declares. `GraphSeries.Activity` carries one action, as `y_activities.rs` and the graph tests use it.
- `y_activities.rs` reads the segments as `sxs.0`; the model reads that as the `values` field of `ScaleXSegments`.
- GraphSeries.New: requires each activity's action and projects to be in the given sets, and each activity to start before the last segment ends. Otherwise the Rust code panics on an `unwrap` or an index out of bounds.
- Filters.NewFilterMeaning: requires a non-empty list. `Filter::new` indexes the first activity and panics on an empty list.
- XSegments.FindIndexHits: covers day, month and year only. The week scale is the finding below. The month case assumes four-digit years: with other years, `year + month` texts can collide (`FourDigitYears`).
- XSegments.FixedFindIndexHits: assumes four-digit years, like the month case.
- Labels.DayLabel: covers years 1000 to 9999 only. `Display` prints the year unpadded, while the serialised text pads it to four digits and signs it outside that range.
- Integer widths are unbounded: i64 minute counts, `usize` positions, and JavaScript numbers taken as exact integers. `s` and `l` of `stringToHslColor` are integers; fractional values are not modelled.
- `stringToColor`'s commented-out hash is not code and is not modelled. A string is taken as its sequence of UTF-16 code units (integers below 0x10000), as `charCodeAt` returns them; the conversion from text to code units is not modelled.
- Parser.UsualCase: states the usual line for any two readable times, including an end before the start, because nothing in `parse_activity` compares them. There is no separate lemma for a concrete end-before-start line.
- `nom`'s `Incomplete` carries a count of needed bytes; the model keeps only that the input was incomplete. Errors keep only their kind (`Char`, `MapRes`).

## Findings

| source | as written | input that shows it | evidently intended | confidence | as-written member | corrected member |
|---|---|---|---|---|---|---|
| timespent/src/graph/x_segments.rs:195-196, 270 | the week index keys a segment by the calendar year of its Monday, and the lookup keys a date-time by its own calendar year, each joined to the ISO week number | segments from 2024-12-23 to 2025-01-05: the Monday 2024-12-30 is keyed `20241`, while 2025-01-01 looks up `20251`, misses, and falls back to segment 0 (2024-12-23..30), which does not hold it | key both by the ISO week's own year, so that each date-time finds the week that holds it | not executed | XSegments.WeekLookupAcrossNewYear | XSegments.FixedFindIndexHits |
