# Sports festival front-end: a Dafny model

This project models the logic core of the Spandan'26 sports-festival website, a
React front-end with a hosted database behind it. It covers:

- **the built-in festival data**: the sports of the three categories, the match
  schedule and the festival dates, with the lookups by date, by sport and by id;
- **the pages over that data**:
  - the sport detail page, whose slug rule differs from the lookup's;
  - the day schedule with its category sections;
  - the group points table;
  - the countdown;
  - the live-stream URL rewrite;
- **the admin side**:
  - the PIN gate;
  - the route gate and its one-shot toast;
  - the login form;
  - the admin forms for matches, teams and groups, and the grouping of teams;
  - the hour/minute time picker;
  - the JSON/CSV data export, with a CSV decoder proved to invert it;
- **the data layer**: the standings comparator, the query keys, and the query
  cache that mutations invalidate;
- **the chat panel**: its send rules and its append-only message list.

Each source file becomes one module:

| file | module | form |
|---|---|---|
| `common.dfy` | `Common` | the JavaScript string and array built-ins the code relies on (`trim`, `split(..)[0]`, `includes`, `filter`, `join`, `padStart`, ASCII `toLowerCase`) |
| `sorting.dfy` | `Sorting` | `Array.prototype.sort` with a JavaScript comparator, as an in-place insertion sort on an `array` |
| `standings.dfy` | `Standings` | the data hooks; the cache is a class with a `map` field |
| `export.dfy` | `Export` | `DataExport.tsx`; the CSV builder is a method with a loop |
| `time_picker.dfy` | `TimePicker` | `TimePicker.tsx` |
| `countdown.dfy` | `Countdown` | `CountdownTimer.tsx`; the component state is a class |
| `live_stream.dfy` | `LiveStream` | `LiveStream.tsx` |
| `pin_gate.dfy` | `PinGate` | `AdminPinGate.tsx`; pure handler functions, and a class over a four-cell `array` whose methods are proved against them |
| `sports_data.dfy` | `SportsData` | `sportsData.ts` |
| `sport_detail.dfy` | `SportDetail` | `SportDetail.tsx` |
| `schedule.dfy` | `Schedule` | `Schedule.tsx` |
| `points_table.dfy` | `PointsTable` | `PointsTable.tsx` |
| `admin.dfy` | `Admin` | the add handlers and `teamsByGroup` in `Admin.tsx` |
| `protected_route.dfy` | `ProtectedRoute` | `ProtectedRoute.tsx` |
| `live_chat.dfy` | `LiveChat` | `LiveChat.tsx` |
| `login.dfy` | `Login` | `Login.tsx` |

Several things become parameters instead of being modelled:

- the clock;
- the result of each database write and of the authentication service;
- the rows a fetch returns;
- the realtime messages;
- local storage.

## Model

| member | source | states |
|---|---|---|
| Sorting.AdjacentSortedIsSorted | src/hooks/useSportsData.ts:184-197 | with a transitive comparator, order between neighbours gives order between every pair |
| Sorting.SortInPlace | src/hooks/useSportsData.ts:184 | the array is rearranged in place into a permutation of itself in which every neighbouring pair is accepted by the comparator |
| Standings.EffectiveKey | src/hooks/useSportsData.ts:185-196 | a tie-break metric counts only while every metric before it is zero for the team |
| Standings.Compare | src/hooks/useSportsData.ts:184-197 | the comparator is negative exactly when the first team's effective keys outrank the second's, positive exactly in the other direction, and zero exactly when the keys are equal |
| Standings.CompareIsLexicographic | src/hooks/useSportsData.ts:184-197 | the comparator is negative, positive or zero exactly when the effective keys are in descending lexicographic order, in ascending order or equal |
| Standings.PointsDecide | src/hooks/useSportsData.ts:185 | different points alone decide the order |
| Standings.NetRunRateDecides | src/hooks/useSportsData.ts:187-189 | on equal points, a non-zero net run rate on either side decides alone, and equal rates tie |
| Standings.LaterTieBreaks | src/hooks/useSportsData.ts:190-196 | goal difference is consulted only with both rates zero, point difference only with both goal differences zero too, and otherwise the teams tie |
| Standings.CompareAntisymmetric | src/hooks/useSportsData.ts:184-197 | swapping the teams negates the result |
| Standings.CompareTransitive | src/hooks/useSportsData.ts:184-197 | "may stay before" is transitive, so the sort has a consistent order |
| Standings.Key | src/hooks/useSportsData.ts:62-273 | a query key has one to three parts, and a read by id or date ends with that id or date (distinct reads, distinct keys: KeyInjective) |
| Standings.RankTeams | src/hooks/useSportsData.ts:184-199 | the fetched rows become a permutation in which no team comes before one that outranks it |
| Standings.KeyInjective | src/hooks/useSportsData.ts:62-273 | two different reads never share a query key |
| Standings.Enabled | src/hooks/useSportsData.ts:136 | a read is disabled exactly when it is keyed by an id (a sport or a group) and the id in its key is empty; the same guard is at lines 153, 201 and 250 |
| Standings.RunningRows | src/hooks/useSportsData.ts:271-285 | the running-matches read keeps exactly the rows whose status is running, in row order |
| Standings.SetStatus | src/hooks/useSportsData.ts:386-399 | a status update changes the rows with that id and no others |
| Standings.StartedMatchIsListed | src/hooks/useSportsData.ts:271-285 | a match switched to running appears in the next running-matches read |
| Standings.InvalidationTable | src/hooks/useSportsData.ts:87-410 | each mutation's invalidated prefixes make stale exactly the reads of the entity it writes |
| Standings.InvalidatedPrefixes | src/hooks/useSportsData.ts:288-412 | a mutation invalidates one or two prefixes, each a single entity name (which reads they make stale: InvalidationTable) |
| Standings.GroupChangesKeepTeamLists | src/hooks/useSportsData.ts:347-370 | creating or deleting a group leaves every cached team list fresh |
| Standings.MatchChangesRefreshRunning | src/hooks/useSportsData.ts:373-412 | every match mutation makes the running-matches read stale |
| Standings.QueryCache.Fetch | src/hooks/useSportsData.ts:124-153 | a completed read stores a fresh entry under its key, so it needs no refetch; a read disabled by an empty id stores nothing |
| Standings.QueryCache.Invalidate | src/hooks/useSportsData.ts:87 | every cached key that starts with the prefix becomes stale, and no key is added or freshened; afterwards every read whose key has the prefix needs a fetch |
| Standings.QueryCache.RunMutation | src/hooks/useSportsData.ts:288-412 | only a successful write invalidates, and it invalidates exactly the keys its prefixes match; after a successful write every read of the written entity needs a fetch, and a failed write changes nothing |
| Export.Lookup | src/components/DataExport.tsx:37-38 | a present key reads as the value of its first entry, a text read occurs in the record, and a missing field reads as missing |
| Export.EncodeValue | src/components/DataExport.tsx:36-45 | a missing or null value is written as an empty field, and any other value as its escaped text |
| Export.RowTexts | src/components/DataExport.tsx:36-45 | a data row has one text per header, in header order |
| Export.ColumnHoldsValue | src/components/DataExport.tsx:36-38 | for a record whose distinct keys are the headers, column i holds the text of its i-th value |
| Export.CsvLines | src/components/DataExport.tsx:32-47 | the CSV has one header line, taken from the first record's keys, and then one line per record |
| Export.ConvertToCsv | src/components/DataExport.tsx:29-50 | no data gives the empty text; otherwise the output is the header line and the row lines joined by LF |
| Export.ParseQuotedRoundTrip | src/components/DataExport.tsx:41-42 | reading a quoted field recovers the text whose quotes the encoder doubled |
| Export.ParsePlainRoundTrip | src/components/DataExport.tsx:44 | reading an unquoted field recovers it up to the next separator |
| Export.FieldRoundTrip | src/components/DataExport.tsx:38-44 | every encoded field decodes to its text, and the rest of the input is untouched |
| Export.RecordRoundTrip | src/components/DataExport.tsx:46 | a comma-joined line of encoded fields decodes to those fields |
| Export.LinesRoundTrip | src/components/DataExport.tsx:49 | LF-joined encoded records decode to those records |
| Export.ExportLinesEncodeTable | src/components/DataExport.tsx:32-49 | when the header names need no quotes, the lines of the export are the encoding of its header names and row texts |
| Export.CsvRoundTrip | src/components/DataExport.tsx:29-50 | decoding the CSV gives back the header names and each record's texts under them |
| Export.QuotedFieldShape | src/components/DataExport.tsx:41-42 | a field with a comma, quote or LF is wrapped in quotes, and its inside decodes to the original |
| Export.OrEmpty | src/components/DataExport.tsx:18-27 | data not loaded yet counts as no records |
| Export.HandleExport | src/components/DataExport.tsx:64-83 | an empty entity yields no file; otherwise one file `<type>_backup_<date>` with the format's extension, and CSV carries the encoded text |
| Export.ExportToast | src/components/DataExport.tsx:64-82 | an empty entity gives the error `No <type> data to export`; otherwise the success `<type> exported successfully!` |
| Export.ExportToastMatchesFile | src/components/DataExport.tsx:64-82 | a single export reports success exactly when it writes a file, and an error exactly when it writes none |
| Export.HandleExportAll | src/components/DataExport.tsx:85-111 | JSON gives one `full_backup_<date>.json`; CSV gives one non-empty file per non-empty entity (which entity each is: ExportAllOrder) |
| Export.ExportAllOrder | src/components/DataExport.tsx:99-108 | the CSV files are exactly the single-entity exports that yield a file (so one per non-empty entity, with its name and body), matches, then teams, then groups |
| Export.ExportAllPositions | src/components/DataExport.tsx:99-108 | the matches file is first, the teams file follows it when there are matches, and the groups file comes after both |
| Export.EmptyCsvBackupWritesNothing | src/components/DataExport.tsx:85-110 | a CSV backup of three empty entities writes no file, yet `Full backup exported!` is shown, while a single export of an empty entity reports an error |
| TimePicker.DigitsValueOfNatToString | src/components/TimePicker.tsx:25-30 | `parseInt` reads back what `String(n)` writes |
| TimePicker.Match24 | src/components/TimePicker.tsx:14-20 | a match splits the value into a one- or two-digit hour, a colon and two minute digits |
| TimePicker.Match12 | src/components/TimePicker.tsx:23-33 | a match has an hour, a colon, two minute digits, optional white space and AM or PM in either case |
| TimePicker.Match24Complete | src/components/TimePicker.tsx:14-20 | every well-formed 24-hour value is recognised, with its groups |
| TimePicker.Match12Complete | src/components/TimePicker.tsx:23-33 | every well-formed 12-hour value is recognised, with its groups and suffix |
| TimePicker.ParseTime | src/components/TimePicker.tsx:10-36 | the displayed hour has at least two digits, and the displayed minute exactly two (the values shown: ParseTime24, TwelveHour, UnreadableFallsBack) |
| TimePicker.ParseTime24 | src/components/TimePicker.tsx:14-20 | a 24-hour `H:MM` shows `0H` and `MM`, and `HH:MM` shows itself |
| TimePicker.TwelveHour | src/components/TimePicker.tsx:23-32 | every 12-hour value shows its hour converted by the AM/PM rule, padded to two digits, and its minute digits |
| TimePicker.TwelveHourIsNot24 | src/components/TimePicker.tsx:14-23 | a value with an AM/PM suffix never has the 24-hour shape, so the 12-hour rule is the one that applies |
| TimePicker.LeadingZeroHour | src/components/TimePicker.tsx:23-32 | a 12-hour value shows the same time with a one-digit hour as with that digit after a `0` |
| TimePicker.ZeroAm | src/components/TimePicker.tsx:23-32 | `0:15 AM` shows `00` and `15` |
| TimePicker.UnrangedPmHour | src/components/TimePicker.tsx:23-32 | a PM hour from 13 to 99 is not range-checked and shows that hour plus twelve |
| TimePicker.TwoDigits | src/components/TimePicker.tsx:49 | an option label is two digits that read back as its number |
| TimePicker.Hours | src/components/TimePicker.tsx:49 | the hour options are `00` to `23` in order |
| TimePicker.Minutes | src/components/TimePicker.tsx:52 | the minute options are 0, 15, 30 and 45, two digits each |
| TimePicker.PickedTimeRoundTrip | src/components/TimePicker.tsx:10-46 | a value written by the pickers is displayed again as the hour and minute picked |
| TimePicker.HourChange | src/components/TimePicker.tsx:40-42 | choosing one of the offered hours writes a value that displays that hour with the displayed minute unchanged |
| TimePicker.MinuteChange | src/components/TimePicker.tsx:44-46 | with a two-digit displayed hour, choosing a two-digit minute writes a value that displays that minute with the hour unchanged |
| TimePicker.HourChangeShowsChoice | src/components/TimePicker.tsx:40-42 | choosing an hour keeps the displayed minute and shows the chosen hour |
| TimePicker.MinuteChangeShowsChoice | src/components/TimePicker.tsx:44-46 | choosing a minute keeps a two-digit displayed hour and shows the chosen minute |
| TimePicker.TwelveHourValue | src/components/TimePicker.tsx:25-32 | 12 AM becomes `00`, 12 PM stays `12`, and any other PM hour gains twelve |
| TimePicker.To24 | src/components/TimePicker.tsx:27-28 | the conversion keeps the position on a 12-hour clock; for hours up to 12 the result is in the afternoon half exactly for PM; a larger hour gains twelve for PM and is kept for AM, unchecked |
| TimePicker.ThirteenPm | src/components/TimePicker.tsx:25-32 | a 12-hour value is not range-checked: `13:00 PM` shows hour `25` |
| TimePicker.UnreadableFallsBack | src/components/TimePicker.tsx:11-35 | every value with neither the 24-hour nor the 12-hour shape, the empty one included, shows 09:00 |
| TimePicker.NoonFallsBack | src/components/TimePicker.tsx:35 | `noon` shows 09:00 |
| Countdown.TimeLeftOf | src/components/CountdownTimer.tsx:20-36 | there is nothing once the target is reached; otherwise hours, minutes and seconds are in range and the parts add up to the remaining time rounded down to a second |
| Countdown.Timer.constructor | src/components/CountdownTimer.tsx:16-17 | the component starts with no value and the live flag clear |
| Countdown.Breakdown | src/components/CountdownTimer.tsx:31-34 | the four `Math.floor` expressions are in range and sum to the difference minus less than a second |
| Countdown.Timer.Tick | src/components/CountdownTimer.tsx:17-41 | a tick stores the new breakdown; the live flag is set once the target is reached and never cleared |
| Countdown.UnitText | src/components/CountdownTimer.tsx:78 | a value below 10 is shown as `0` and its digit; larger ones as their decimal digits |
| Countdown.Render | src/components/CountdownTimer.tsx:47-80 | the live banner shows exactly when the flag is set, nothing shows exactly when there is no value and the flag is clear, and otherwise each unit shows its value as `UnitText` writes it |
| Countdown.RenderAfterTick | src/components/CountdownTimer.tsx:20-80 | after a tick the banner shows exactly when the target has been reached at some tick; otherwise the four units show the new breakdown through `UnitText`, the clock digits two wide |
| LiveStream.EmbedUrl | src/components/LiveStream.tsx:10-23 | an embed address and any address that is not a YouTube link stay as they are |
| LiveStream.EmbedIsEmbed | src/components/LiveStream.tsx:16-20 | every rewritten address is an embed address |
| LiveStream.EmbedUrlIdempotent | src/components/LiveStream.tsx:10-23 | rewriting twice is rewriting once |
| LiveStream.WatchLinkVideoId | src/components/LiveStream.tsx:14-16 | a standard watch link becomes the embed address of its video id |
| LiveStream.ShortLinkVideoId | src/components/LiveStream.tsx:18-20 | a short link becomes the embed address of the id after `youtu.be/` |
| PinGate.Change | src/components/AdminPinGate.tsx:23-47 | non-digit input is ignored; a digit in the last cell unlocks exactly when the four cells join to the PIN, and otherwise clears the cells, flags the error and returns focus to the first cell |
| PinGate.KeyDown | src/components/AdminPinGate.tsx:49-53 | Backspace on an empty cell that is not the first moves focus back one cell; every other key leaves the gate unchanged |
| PinGate.Paste | src/components/AdminPinGate.tsx:55-71 | the first four characters fill the cells when they are all digits; four wrong digits clear them and flag the error |
| PinGate.JoinPadCells | src/components/AdminPinGate.tsx:60-61 | the padded cells join back to the pasted digits |
| PinGate.PasteUnlocksIffPin | src/components/AdminPinGate.tsx:55-65 | a paste unlocks exactly when its first four characters are the PIN |
| PinGate.PasteKeepsShortError | src/components/AdminPinGate.tsx:64-70 | a paste that does not unlock never clears an error already shown |
| PinGate.HandlersKeepGateValid | src/components/AdminPinGate.tsx:14-71 | every handler keeps four cells of at most one digit and a focus among them |
| PinGate.TypingThePinUnlocks | src/components/AdminPinGate.tsx:11-47 | typing 5, 5, 5, 5 into the cells unlocks on the fourth digit |
| PinGate.PinGateView.constructor | src/components/AdminPinGate.tsx:14-21 | the gate opens with four empty cells, no error and the first cell focused |
| PinGate.PinGateView.HandleChange | src/components/AdminPinGate.tsx:23-47 | the view's cells, error and focus change as `Change` says, and it reports the unlock |
| PinGate.PinGateView.HandleKeyDown | src/components/AdminPinGate.tsx:49-53 | the view changes as `KeyDown` says: only the focus can move back, and the cells and error stay |
| PinGate.PinGateView.HandlePaste | src/components/AdminPinGate.tsx:55-71 | the view changes as `Paste` says, padding the cells in a loop |
| SportsData.AllSports | src/data/sportsData.ts:199 | the sports list is the team sports, then the individual sports, then the minor sports |
| SportsData.ScheduleWithinFestDates | src/data/sportsData.ts:202-234 | every scheduled match is on a festival date |
| SportsData.FestDatesHaveMatches | src/data/sportsData.ts:202-234 | each festival date has at least one scheduled match |
| SportsData.MatchesOnDate | src/data/sportsData.ts:236-238 | the result is exactly the schedule entries on that date, in schedule order and each as often as scheduled |
| SportsData.GetMatchesByDate | src/data/sportsData.ts:236-238 | the built-in schedule's entries on that date, in schedule order; a date outside the festival gives none, and each festival date gives some |
| SportsData.FindSportIndex | src/data/sportsData.ts:246-248 | the index found is the first sport with that id, and there is none when no sport has it |
| SportsData.FindSport | src/data/sportsData.ts:246-248 | a sport found has that id; nothing is found exactly when no sport has it |
| SportsData.GetSportById | src/data/sportsData.ts:246-248 | a sport found has that id and is one of the festival's sports; nothing is found exactly when no sport has it |
| SportsData.ReplaceFirstSpace | src/data/sportsData.ts:243 | the first space, where `indexOf` finds it, becomes `-`, and everything else is kept; text without a space is unchanged |
| SportsData.ReplaceFirstSpaceKeeps | src/data/sportsData.ts:243 | text without a space is unchanged, no character other than a space changes, and nothing after a space changes |
| SportsData.MatchesForSport | src/data/sportsData.ts:240-244 | an unknown id gives nothing; otherwise exactly the entries whose first-space slug is the id or whose sport name equals the sport's name, in schedule order and with their multiplicity |
| SportsData.GetMatchesBySport | src/data/sportsData.ts:240-244 | an unknown id gives none; otherwise only built-in schedule entries listed for the sport, in schedule order |
| SportsData.FirstSpaceSlugKeepsLaterSpaces | src/data/sportsData.ts:243 | the lookup's slug still has any space after the first |
| SportsData.TugOfWarSport | src/data/sportsData.ts:246-248 | `tug-of-war` finds the Tug of War sport |
| SportsData.TugOfWarListedByName | src/data/sportsData.ts:240-244 | a Tug of War match has a slug that is not the id, but it is still listed through the exact-name rule |
| SportDetail.ReplaceSpaceRuns | src/pages/SportDetail.tsx:28 | the page's slug has no white space left and is never longer than the name |
| SportDetail.SpaceRunBecomesHyphen | src/pages/SportDetail.tsx:28 | a whole run of white space after a space-free prefix becomes one `-`, and the rest is slugged the same way |
| SportDetail.NoSpaceUnchanged | src/pages/SportDetail.tsx:28 | a name without white space is its own run slug |
| SportDetail.SportMatches | src/pages/SportDetail.tsx:26-30 | the page lists exactly the entries whose run slug is the id or whose sport name, lower-cased, equals the sport's, in schedule order and with their multiplicity |
| SportDetail.CategoryMapsInjective | src/pages/SportDetail.tsx:32-42 | distinct categories have distinct back paths and distinct labels |
| SportDetail.BackPath | src/pages/SportDetail.tsx:32-36 | the back link is a root path ending in `-sports` (distinct per category: CategoryMapsInjective) |
| SportDetail.CategoryLabel | src/pages/SportDetail.tsx:38-42 | the label ends in ` Sports` (distinct per category: CategoryMapsInjective) |
| SportDetail.PageFor | src/pages/SportDetail.tsx:9-103 | a missing or empty id, or one no sport has, gives "not found"; otherwise the page shows the stream exactly when the URL is non-empty, the points table exactly when there are groups, the sport's matches, and the placeholder exactly when there are none |
| SportDetail.PageKeepsExactNameMatches | src/pages/SportDetail.tsx:29 | a match the lookup lists by exact name is listed on the page too |
| SportDetail.SlugRulesAgreeWithoutSpaces | src/pages/SportDetail.tsx:28 | without white space in the name, the page's slug and the lookup's slug are the same |
| SportDetail.SlugRulesDifferOnTwoSpaces | src/pages/SportDetail.tsx:28 | with two spaces the lookup's slug keeps a space, so it equals no id without white space, while the page's slug has none |
| Schedule.InitialDate | src/pages/Schedule.tsx:8 | the page opens on the first festival date, the 22nd |
| Schedule.OfCategory | src/pages/Schedule.tsx:12-14 | the section keeps exactly the day's matches of its category, in day order |
| Schedule.OfCategoryCounts | src/pages/Schedule.tsx:12-14 | each match of the category is kept as often as it occurs in the day, and no other |
| Schedule.CategoriesPartition | src/pages/Schedule.tsx:12-14 | the three sections together have as many matches as the day |
| Schedule.CountLabel | src/pages/Schedule.tsx:54 | one match is "(1 match)"; two or more use the plural |
| Schedule.TotalConcat | src/pages/Schedule.tsx:48-90 | the match count of joined sections is the sum of their counts |
| Schedule.DayViewOf | src/pages/Schedule.tsx:37-90 | the placeholder shows exactly when the day has no matches; otherwise one section per category with matches, team then individual then minor, each with its heading, its count label and that category's matches |
| Schedule.SchedulePage | src/pages/Schedule.tsx:8-9 | a festival date shows sections that together hold all its matches; any other date shows the placeholder |
| PointsTable.SortByPoints | src/components/PointsTable.tsx:27-28 | a group's teams are rearranged into a permutation with points never increasing |
| PointsTable.Rows | src/components/PointsTable.tsx:29-40 | each row shows its team, and only the first row carries the leader's highlight |
| PointsTable.RenderGroups | src/components/PointsTable.tsx:10-40 | one table per group, in order, each with its group's teams sorted by points and the leader first |
| Admin.OrNull | src/pages/Admin.tsx:337-341 | an empty optional field is sent as null |
| Admin.MatchNameOf | src/pages/Admin.tsx:325-327 | with both teams given, the name is "A vs B"; otherwise the typed name |
| Admin.BuildMatch | src/pages/Admin.tsx:319-341 | a missing sport or time is rejected first, then a missing name; an accepted row carries the form's values with the derived name and the empty optional fields nulled |
| Admin.FormAfterAddMatch | src/pages/Admin.tsx:343-358 | the form is reset to its defaults only after an accepted row is written successfully |
| Admin.AddMatchToast | src/pages/Admin.tsx:319-359 | a rejected form toasts its validation error; a built row toasts `Match added!` when the write succeeds and `Failed to add match` when it fails, so success shows exactly when the form is reset |
| Admin.DefaultFormIsRejected | src/pages/Admin.tsx:305-323 | the default form is not addable |
| Admin.BuildTeam | src/pages/Admin.tsx:636-652 | a team needs a group and a name, and starts with every statistic at zero |
| Admin.TeamFormAfterAdd | src/pages/Admin.tsx:653-657 | the team form is cleared only after a successful write |
| Admin.AddTeamToast | src/pages/Admin.tsx:636-658 | the validation error, `Team added!` after a successful write, `Failed to add team` after a failed one; success exactly when the form is cleared |
| Admin.NewTeamsAreLevel | src/pages/Admin.tsx:641-652 | two new teams tie under the standings comparator |
| Admin.BuildGroup | src/pages/Admin.tsx:861-866 | a group needs a sport and a name, and is sent as entered |
| Admin.GroupFormAfterAdd | src/pages/Admin.tsx:867-870 | the group form is cleared only after a successful write |
| Admin.AddGroupToast | src/pages/Admin.tsx:861-871 | the validation error, `Group created!` after a successful write, `Failed to create group` after a failed one; success exactly when the form is cleared |
| Admin.TeamsByGroup | src/pages/Admin.tsx:672-677 | one bucket per group id present, holding exactly that group's teams in list order |
| ProtectedRoute.Decide | src/components/ProtectedRoute.tsx:25-44 | loading shows the check screen; otherwise no user redirects to login, a non-admin on an admin route redirects home, and everyone else sees the page |
| ProtectedRoute.DefaultAdmitsAnyUser | src/components/ProtectedRoute.tsx:11-44 | without `requireAdmin` any signed-in user passes, admin or not |
| ProtectedRoute.ToastFor | src/components/ProtectedRoute.tsx:15-23 | the toast is for the login redirect or the home redirect, matching the render decision |
| ProtectedRoute.EffectStep | src/components/ProtectedRoute.tsx:15-23 | a toast is shown only while none has been shown yet, and showing one sets the flag |
| ProtectedRoute.NoToastAfterShown | src/components/ProtectedRoute.tsx:16-19 | once the flag is set, no later run shows a toast |
| ProtectedRoute.AtMostOneToast | src/components/ProtectedRoute.tsx:13-23 | however the authentication state changes during one mount, at most one toast is shown |
| ProtectedRoute.Gate.OnAuthChange | src/components/ProtectedRoute.tsx:15-23 | the effect updates the flag and shows a toast as `EffectStep` says |
| LiveChat.FinalUsername | src/components/LiveChat.tsx:79 | a blank name is sent as `Anonymous`, any other as trimmed |
| LiveChat.SendPayload | src/components/LiveChat.tsx:76-88 | a blank message sends nothing; otherwise the row carries the trimmed message, the final name and the view's sport |
| LiveChat.PersistedName | src/components/LiveChat.tsx:80-82 | a name is stored only when it is non-blank and a message is sent, and it is stored trimmed |
| LiveChat.TrimmedIsFixed | src/components/LiveChat.tsx:77 | text with no white space at either end is its own trimmed form |
| LiveChat.PayloadIsTrimmed | src/components/LiveChat.tsx:84-88 | the inserted message is already trimmed, so sending its text again gives the same row |
| LiveChat.PersistedNameIsReused | src/components/LiveChat.tsx:79-82 | the name a send stores is the name a later send uses |
| LiveChat.InitialUsername | src/components/LiveChat.tsx:29-30 | an empty stored name is ignored |
| LiveChat.ChatView.Load | src/components/LiveChat.tsx:33-43 | a returned list replaces the messages, and loading ends either way |
| LiveChat.ChatView.Push | src/components/LiveChat.tsx:59 | a realtime insert is appended at the end, and earlier messages are unchanged |
| LiveChat.ChatView.StartSend | src/components/LiveChat.tsx:76-88 | up to the awaited insert: the row is `SendPayload`'s, a non-blank name is stored, and the input is not yet cleared |
| LiveChat.ChatView.CompleteSend | src/components/LiveChat.tsx:90 | when the insert returns the input is cleared, whatever was typed meanwhile and whatever the insert's result |
| LiveChat.ChatView.Send | src/components/LiveChat.tsx:76-91 | a send whose insert returns before anything else: the row inserted is `SendPayload`'s; a sent message clears the input; a blank one changes nothing |
| LiveChat.ChatView.StartTwice | src/components/LiveChat.tsx:76-97 | a second Enter while the first insert is in flight inserts the same row again |

| Login.LoginError | src/pages/Login.tsx:25-28 | sign-in needs both fields |
| Login.SignupError | src/pages/Login.tsx:44-52 | sign-up rejects empty fields first, then a password shorter than six characters |
| Login.LoginSubmission | src/pages/Login.tsx:23-40 | auth is called only with both fields filled, and only a successful sign-in goes to `/admin`; a refused form toasts its validation message and a successful sign-in toasts `Logged in successfully!` |
| Login.SignupSubmission | src/pages/Login.tsx:42-63 | auth is called only for valid input; sign-up never changes route, and it reports success exactly when the call succeeds; a refused form toasts its validation message, a failed call the service's error, and success `Account created! You can now log in.` |
| Login.ShortPasswordsOnlyBlockSignup | src/pages/Login.tsx:25-52 | a short password is refused by sign-up but still tried by sign-in |
| Login.SignupAcceptedImpliesLoginAccepted | src/pages/Login.tsx:25-52 | input that sign-up accepts also passes the sign-in check |
| Login.LoginPage.HandleLogin | src/pages/Login.tsx:23-40 | the result is `LoginSubmission`'s; the submitting flag is set exactly while the call is in flight and is clear after it |
| Login.LoginPage.HandleSignup | src/pages/Login.tsx:42-63 | the result is `SignupSubmission`'s; the submitting flag is set exactly while the call is in flight and is clear after it |

## Left out

- The database client and the query library (TanStack Query). They are modelled only as query keys and staleness flags. Refetch intervals, request de-duplication, the `.order(..)` of each query, the row limit of the chat fetch and cascading deletes are not modelled.
- `JSON.stringify`, `Blob` downloads and the 100 ms and 200 ms `setTimeout` staggering of CSV files. The JSON export yields a file name and MIME type with no body. Toasts are modelled as their kind and text only, not their display.
- I/O is a parameter: the outcome of each database write, the auth service's reply, fetched rows, realtime pushes and local storage.
- The clock is a parameter: the countdown's `now`, and the ISO date text behind export file names. The one-second `setInterval` is a `Tick` method that the caller invokes.
- DOM focus is an index. The delayed refocus after a wrong PIN happens at once.
- Strings:
  - Strings are sequences of characters. JavaScript measures `length` and slices in UTF-16 code units, a difference that shows only outside the Basic Multilingual Plane.
  - `toLowerCase` is modelled on ASCII letters only.
  - `trim` and `\s` use the JavaScript white-space set of `\s`, with no Unicode normalisation.
- `String(value)` for non-string export values is not modelled. A record's values are given as their texts, or as missing for null or undefined.
- The standings net run rate is a decimal in the store. It is modelled as an integer in thousandths, because the comparator uses only its sign, equality and difference.
- The sport `icon`/`description` fields of the built-in data and the page's decorative markup are not modelled.
- Sorting.SortInPlace: stability is not modelled. `Array.prototype.sort` is stable in current engines; the model proves order and permutation only.
- PointsTable.RenderGroups: `PointsTable` sorts each group's team array in place, which also reorders the shared built-in data. The model sorts a fresh copy per group, so that aliasing is not captured.
- TimePicker.MinuteChangeShowsChoice: requires a two-digit displayed hour. The 12-hour pattern does not range-check the hour, so a value such as `99:00 PM` displays hour `111`. A minute change then writes `111:15`, which no pattern reads, and the pickers fall back to 09:00. The lemma does not cover that case.
- TimePicker.MinuteChange: its display clause is stated only for a two-digit displayed hour, for the reason given for MinuteChangeShowsChoice.
- TimePicker.ParseTime: `parseInt` is applied only to the one- or two-digit groups the patterns allow.
- Export.CsvRoundTrip: the header line is written without escaping, so the round trip is stated for header names that need no quotes and for records with at least one key.
- LiveStream.EmbedUrl: a watch link's id is cut at the second `v=` as well as at `&`, and a short link's id at the second `youtu.be/` as well as at `?`. These are the cuts `split(..)[1]` and `split(..)[0]` give. The video-id lemmas assume no embed substring.
- LiveChat.ChatView.StartSend: the awaited insert itself is not modelled; any other step may run between `StartSend` and `CompleteSend`, and the model does not track how many inserts are in flight.
- Login: the form's input handlers and the loading screen are not modelled.
