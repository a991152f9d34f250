# actividad-web, modelled in Dafny

actividad-web is a local activity tracker for Linux desktops. A background tracker polls
the active window every couple of seconds. It keeps one open session while the window
stays the same, and writes a row to a SQLite `sessions` table when the window changes or
tracking stops. A web API then reports on those rows:
- it clips them to a day, week, month or custom range;
- it totals active, AFK and unattributed seconds;
- it groups time by app or by category;
- it hides windows that match the user's privacy rules.

The project models the core of that program, one Dafny module per concern:

| file | module | models |
|---|---|---|
| `tracker.dfy` | `Tracker` | `app/tracker.py`: the session state machine (`_ingest_locked`, `_flush_locked`, `stop`, `status`) as pure step functions plus the `ActivityTracker` class that applies them to the store |
| `db.dfy` | `SessionStore` | `app/db.py`: the `sessions` table as a sequence of rows with an id counter, `insert_session`, `recent_sessions`, `overlapping_sessions`, `_normalize_app_label`; the `ActivityDB` class |
| `privacy.dfy` | `Privacy` | `app/privacy.py`: rule compilation, first-match lookup, exclusion and statistics; the `PrivacyFilter` class |
| `reporting.dfy` | `Reporting` | `app/main.py`: `_parse_bool`, `_seconds_to_human`, `_clip_segment`, `_is_afk_label`, `_category_for_app`, `_sorted_payload`, the totals of `_build_overview` (as a loop with invariants), and the live segment that `collect_segments` appends |
| `calendar.dfy`, `ranges.dfy` | `Calendar`, `Ranges` | `app/main.py`: `_parse_iso_date` and `_resolve_range`, with the proleptic Gregorian calendar that Python's `date` uses (days numbered from 0001-01-01 as day 1) |
| `windows.dfy` | `WindowList` | `app/main.py`: the `/api/windows` endpoint's redaction of private windows and its per-app counts |
| `detector.dfy`, `extract.dfy` | `Detector`, `ToolOutput` | `app/detector.py`: the `ActiveWindow` record, capabilities and backend preference, the X11-first and Wayland-first detection orders, the Hyprland, KWin and X11 readers, the four text extractors, and the KWin probe cache |
| `idle.dfy` | `Idle` | `app/idle.py`: `_normalize_idle_value`, the three backend readers, the `get_idle_seconds` fallback chain, `_store` and `capabilities`; the `IdleDetector` class |
| `text.dfy`, `sorting.dfy`, `tally.dfy`, `wrappers.dfy` | `Text`, `Sorting`, `Tally`, `Wrappers` | Python's `str.strip`, `lower`/`casefold`, `in` on strings, decimal digits and `int`; `sorted` with a key; a `dict[str, int]` kept in insertion order; `Option` and `Result` |

**What the outside world becomes.** Everything the program reads from outside is a
parameter of the model:
- the current time;
- which tools are installed;
- what a command printed, or `None` when the command failed;
- whether KWin is running;
- what `psutil` names a process.

The regular-expression engine that privacy rules use is a pair of functions (does a
pattern compile, does it find a match) given to `PrivacyFilter` when it is built.

**What the tracker guarantees.** The proofs show the following.
- When every poll sees an identified window, a run of polls writes exactly one row per
  change of window. It closes each session at the moment the next one opens, and the
  final flush closes the last one (`Tracker.RunThenFlushLog`).
- A poll on which detection fails closes the open session at that poll's time, as a
  flush would, so the same window seen before and after the failure gives two rows
  (`Tracker.FailedDetectionFlushes`, `Tracker.FailedDetectionSplitsWindow`).
- Polls that see an unidentified window ("Proceso" or "Desconocido" with no title) change
  nothing (`Tracker.UnidentifiedTicksVanish`).
- The store only ever holds rows with a positive duration, a normalized app label and
  increasing ids (`SessionStore.InsertKeepsValid`, kept by every method of
  `ActivityTracker`).

Idle readings of 1000 or more are taken as milliseconds and divided by 1000. Smaller
readings are taken as seconds, so 999 reads as 999 seconds and 1000 as one second
(`Idle.NormalizeJumpsAtThousand`).

## Model

| member | source | states |
|---|---|---|
| Text.Strip | app/db.py:123 | the result has no whitespace at either end and is never longer than the input |
| Text.StripIdempotent | app/main.py:186 | stripping twice is the same as stripping once |
| Text.StripEmptyIffBlank | app/db.py:123-125 | the stripped text is empty exactly when every character of the input is whitespace |
| Text.StripSlice | app/db.py:123 | the stripped text is a contiguous piece of the input, starting where the leading whitespace ends |
| Text.Lower | app/main.py:182 | same length as the input; every letter A–Z becomes its lower-case form, every other character is kept |
| Text.FirstDigitRun | app/idle.py:141 | finds the leftmost maximal run of digits: none exactly when the text has no digit; otherwise no digit comes before it and no digit follows it |
| Text.FirstNumber | app/idle.py:141-145 | there is no number exactly when the text has no digit |
| Text.FirstNumberFindsRendered | app/idle.py:141-145 | a number written in decimal between digit-free text reads back as that number |
| Text.DecimalRoundTrip | app/idle.py:145 | reading back the decimal rendering of n gives n |
| Text.DecimalNoLeadingZero | app/main.py:102 | the decimal rendering starts with '0' only for zero |
| Text.Pad2 | app/main.py:102 | `:02d`: two digits whose value is the number |
| Sorting.SortBy | app/main.py:195 | the result is ordered by the key and is a permutation of the input |
| Sorting.InsertBy | app/main.py:195 | inserting into an ordered sequence keeps it ordered and adds exactly that element |
| Tally.AddTo | app/main.py:244 | `d[k] = d.get(k, 0) + n`: k's count grows by n and no other key's count changes; the total grows by n; k is appended when new; the keys stay distinct |
| Tally.SumBoundsEntries | app/main.py:244-250 | with non-negative counts, any key's count lies between 0 and the total |
| SessionStore.NormalizeAppLabel | app/db.py:122-128 | a blank label, or "desconocido" in any letter case once trimmed, becomes "Proceso"; any other label comes back trimmed, and is then in normal form |
| SessionStore.NormalizedIsNormal | app/db.py:122-128 | every normalized label is in normal form |
| SessionStore.NormalLabelIsFixed | app/db.py:122-128 | a label is in normal form exactly when normalizing leaves it unchanged |
| SessionStore.NormalizeIdempotent | app/db.py:122-128 | normalizing twice is the same as normalizing once |
| SessionStore.BlankLabelIsUnattributed | app/db.py:123-125 | a label made only of whitespace is stored as "Proceso" |
| SessionStore.NormalLabelIsStripped | app/db.py:123 | a normal label has no surrounding whitespace |
| SessionStore.UnattributedIsNormal | app/db.py:125 | "Proceso" is itself a normal label |
| SessionStore.Insert | app/db.py:54-72 | a session whose end is not after its start changes nothing; otherwise exactly one row is appended, with the next id and the normalized label, and earlier rows are kept |
| SessionStore.InsertKeepsValid | app/db.py:54-72 | inserting keeps every row positive in duration, normal in label and with ids increasing |
| SessionStore.InsertNonPositiveStoresNothing | app/db.py:62-63 | a zero or negative duration stores no row |
| SessionStore.NormalizedRow | app/db.py:110-119 | reading a row back normalizes its label and keeps every other column |
| SessionStore.OverlapRows | app/db.py:104 | every selected row overlaps the range |
| SessionStore.OverlapRowsMembers | app/db.py:104 | a row is selected exactly when it is stored and `end_ts > start` and `start_ts < end` |
| SessionStore.NormalizeAll | app/db.py:110-119 | the rows read back one for one, each normalized |
| SessionStore.NormalizeAllMembers | app/db.py:110-119 | a row is in the result exactly when it is the normalized form of a stored row |
| SessionStore.NormalizeAllKeepsTimes | app/db.py:110-119 | normalization keeps each row's start and end and leaves its label normal |
| SessionStore.Overlapping | app/db.py:98-120 | the result is ordered by start time; it has as many rows as overlap the range; each row overlaps and has a normal label |
| SessionStore.OverlappingExactly | app/db.py:98-120 | a row is returned exactly when it is the normalized form of a stored row that overlaps the range |
| SessionStore.ClampLimit | app/db.py:83 | the limit is clamped into 1..1000 and kept as is inside that interval |
| SessionStore.Recent | app/db.py:74-96 | returns min(row count, clamped limit) rows; newest end first; each a stored row, normalized; no row left out ends later than one returned |
| SessionStore.SortedPrefixIsLatest | app/db.py:80-83 | the first n rows ordered by descending end are the n latest-ending rows |
| SessionStore.ActivityDB.constructor | app/db.py:20-53 | a new store holds an empty, valid table whose next id is 1 |
| SessionStore.ActivityDB.InsertSession | app/db.py:54-72 | the table becomes `Insert` of the old table and stays valid |
| SessionStore.ActivityDB.RecentSessions | app/db.py:74-96 | returns `Recent` of the stored rows: at most 1000 rows, every label normal |
| SessionStore.ActivityDB.OverlappingSessions | app/db.py:98-120 | returns `Overlapping` of the stored rows; every returned row overlaps the range |
| Tracker.Flush | app/tracker.py:109-120 | flushing closes the open session at the given time, if there is one, writes nothing otherwise, and leaves no session open |
| Tracker.IsUnidentified | app/tracker.py:122-125 | a window counts as unidentified only when its title is all whitespace |
| Tracker.Ingest | app/tracker.py:72-107 | one poll writes at most one row, and only the open session closed at the poll's time; a newly opened session starts at the poll's time and matches the detected window; no window detected writes the open session closed at the poll's time (nothing when none is open) and leaves nothing open |
| Tracker.FlushIdempotent | app/tracker.py:109-111 | a second flush writes nothing; two flushes together write at most one row |
| Tracker.UnidentifiedIsIgnored | app/tracker.py:77-82 | an unidentified window leaves the state as it was and writes nothing, whether a session is open or not |
| Tracker.SameWindowIsNoop | app/tracker.py:93-99 | the same app, title and source as the open session changes nothing |
| Tracker.DifferentWindowRotates | app/tracker.py:101-107 | a different identified window closes the open session at the poll's time and opens a new one starting at that same time |
| Tracker.Run | app/tracker.py:62-70 | a run of polls writes at most one row per poll; no polls change nothing; a run whose last poll detected nothing leaves nothing open |
| Tracker.FailedDetectionFlushes | app/tracker.py:72-75 | a poll that detected nothing adds to the run's rows exactly what a flush at that poll's time would, and leaves nothing open |
| Tracker.FailedDetectionSplitsWindow | app/tracker.py:62-75 | a window, then a failed detection, then the same window, then a flush write two rows: the first closed at the failed poll, the second opened at the poll after it |
| Tracker.Identified | app/tracker.py:122-125 | keeps only polls that detected an identified window |
| Tracker.UnidentifiedTicksVanish | app/tracker.py:62-82 | when every poll detects some window, a run of polls has the same effect as the run with the unidentified ones removed |
| Tracker.IdenticalTicksWriteOnce | app/tracker.py:62-120 | polls that all see one identified window write nothing until the flush; then they write exactly one row from the first poll to the flush |
| Tracker.IdenticalTicksKeepOpen | app/tracker.py:84-99 | polls that all see one identified window keep the session opened at the first poll |
| Tracker.FirstTickOpens | app/tracker.py:84-91 | with nothing open, an identified window opens a session at the poll's time |
| Tracker.RunKeepsSegment | app/tracker.py:93-99 | one more poll of the open window keeps the run's state |
| Tracker.Compress | app/tracker.py:62-107 | collapses a run of identified polls into its sessions: no more of them than polls; at least one for a non-empty run; no two consecutive sessions show the same window |
| Tracker.ClosedBefore | app/tracker.py:101-107 | one row for each session but the last, closed when the next one opens |
| Tracker.RunMatchesCompress | app/tracker.py:62-107 | running the tracker over identified polls leaves the last session open and writes exactly the rows of all earlier sessions |
| Tracker.RunThenFlushLog | app/tracker.py:38-44 | polls followed by a stop write one row per session, the last one closed at the stop time |
| Tracker.ApplyAll | app/tracker.py:113-119 | applying the inserts in order keeps a valid table valid and adds at most one row per insert |
| Tracker.ActivityTracker.constructor | app/tracker.py:20-28 | no session is open, and the interval is at least half a second |
| Tracker.ActivityTracker.FlushLocked | app/tracker.py:109-120 | the store receives the flush's row, if any, and nothing is left open |
| Tracker.ActivityTracker.IngestLocked | app/tracker.py:72-107 | the open session and the store become what `Ingest` says, and the store stays valid |
| Tracker.ActivityTracker.Stop | app/tracker.py:38-44 | the open session is written, closed at the stop time, and nothing is left open |
| Tracker.ActivityTracker.GetStatus | app/tracker.py:46-60 | reports the interval and the open session as it stands |
| Privacy.CompileOne | app/privacy.py:33-54 | a rule is dropped exactly when it is disabled, its trimmed pattern is empty, or it is a regex rule whose pattern does not compile; a kept rule carries its lower-cased trimmed pattern, and a compiled regex exactly when its mode is "regex" |
| Privacy.FilterMapMembers | app/privacy.py:32-54 | the loop keeps exactly the values the step produced, and drops nothing it produced |
| Privacy.Compile | app/privacy.py:31-57 | never yields more compiled rules than rules given |
| Privacy.CompileAppend | app/privacy.py:32-54 | compiling two lists one after the other gives the compiled lists concatenated |
| Privacy.CompileMembers | app/privacy.py:32-54 | a compiled rule is the compiled form of some given rule, and every rule that compiles is kept |
| Privacy.CompiledRulesAreUsable | app/privacy.py:33-54 | every kept rule is enabled, has a non-empty pattern stored lower-cased and trimmed, and, in regex mode, holds a pattern that compiles |
| Privacy.FieldFor | app/privacy.py:70-71 | a "title" rule reads the title; every other scope reads the app |
| Privacy.RuleMatches | app/privacy.py:69-87 | a rule matches only when the field it reads is non-empty, and only in the contains, exact or regex mode |
| Privacy.FirstMatch | app/privacy.py:68-89 | returns none exactly when no rule matches; otherwise the index of a rule that matches, with no earlier rule matching |
| Privacy.BlankFieldNeverMatches | app/privacy.py:72-73 | a rule never matches when the field it reads is empty after trimming |
| Privacy.RuleReadsOneField | app/privacy.py:70-71 | a rule's verdict depends only on the field its scope names |
| Privacy.UnknownModeNeverMatches | app/privacy.py:75-89 | a mode other than contains, exact and regex never matches |
| Privacy.ExactImpliesContains | app/privacy.py:75-83 | whatever an exact rule matches, the same rule in contains mode matches too |
| Privacy.CountScope | app/privacy.py:102-103 | a scope's rule count never exceeds the number of rules |
| Privacy.ScopeCountsBounded | app/privacy.py:98-108 | app rules and title rules together are at most all enabled rules |
| Privacy.PrivacyFilter.constructor | app/privacy.py:26-29 | the filter starts with the compiled form of the given rules |
| Privacy.PrivacyFilter.UpdateRules | app/privacy.py:31-57 | the compiled rules are replaced by the compiled form of the new list |
| Privacy.PrivacyFilter.MatchReason | app/privacy.py:59-89 | none exactly when no compiled rule matches the trimmed app and title; otherwise the first matching rule |
| Privacy.PrivacyFilter.IsExcluded | app/privacy.py:91-92 | a window is excluded exactly when some compiled rule matches it |
| Privacy.PrivacyFilter.GetStats | app/privacy.py:94-109 | counts every compiled rule and those per scope; app and title counts together never exceed the total |
| Calendar.DaysInMonth | app/main.py:110 | every month has 28 to 31 days |
| Calendar.YearLength | app/main.py:131 | a leap year has 366 days and every other year 365 |
| Calendar.MonthsFillYear | app/main.py:141-147 | the twelve months together fill the year exactly |
| Calendar.OrdinalBounds | app/main.py:130-131 | every valid date from year 1 to 9999 has a day number between 1 and the number of 9999-12-31 |
| Calendar.LastDayIsMaxOrdinal | app/main.py:131 | 9999-12-31 is the last representable day |
| Calendar.Weekday | app/main.py:135 | `weekday()` is between 0 (Monday) and 6 |
| Calendar.WeekStart | app/main.py:135 | the Monday that starts the day's week: a Monday, at most six days before the day |
| Calendar.MonthStart | app/main.py:141 | the first of the month: a valid date on day 1, within the month's length before the date |
| Calendar.NextMonthStart | app/main.py:142-145 | the first of the next month, with December rolling over to January of the next year |
| Calendar.MonthSpan | app/main.py:141-147 | from the first of the month to the first of the next month is exactly the month's length |
| Ranges.ParseIsoDate | app/main.py:108-112 | only a valid calendar date is accepted |
| Ranges.ParseFormatRoundTrip | app/main.py:108-112 | every valid date written as YYYY-MM-DD parses back to itself |
| Ranges.FormatIsoDate | app/main.py:108-112 | a date written as YYYY-MM-DD is ten characters long |
| Ranges.ModeNamed | app/main.py:123-125 | a recognised mode name is the name of the mode it returns |
| Ranges.ModeNamesRoundTrip | app/main.py:123-125 | each of day, week, month and custom is recognised as itself |
| Ranges.AnchorDate | app/main.py:127 | with no anchor given, today is used; a given anchor is an error exactly when it does not parse |
| Ranges.DayRange | app/main.py:129-132 | the anchor's day, exactly one day long, unless the next day is past the last representable day |
| Ranges.WeekRange | app/main.py:134-138 | seven days starting on a Monday and holding the anchor; an error exactly when the day after that week is past the last representable day |
| Ranges.MonthRange | app/main.py:140-148 | the anchor's month from its first day, exactly the month's length, holding the anchor; an error exactly when the next month is not representable |
| Ranges.CustomRange | app/main.py:150-163 | each error exactly when its check is the first to fail: missing dates, then an unparsable start date, then an unparsable end date, then an end before the start, then an end past the last representable day, then a span over 365 days; it succeeds exactly when both dates parse, the end is not before the start, the day after the end is representable, and the span is at most 365 days; it then runs from the start day to the day after the end |
| Ranges.ModeRange | app/main.py:129-163 | each mode is its own range (day, week, month or custom); only custom can fail for a reason other than the last representable day; a successful range has the requested mode and anchor, is non-empty and representable, and holds the anchor unless the mode is custom |
| Ranges.CustomEndBeforeStartRefused | app/main.py:127-156 | a custom request with both dates given and parsed, the end before the start, and an accepted anchor is refused because the end comes before the start |
| Ranges.ResolveRange | app/main.py:115-163 | an unknown mode is the first error, then a bad anchor in any mode; with a known mode and an accepted anchor, the result is that mode's range around that anchor; a resolved range has the named mode, the parsed anchor or today, is non-empty and representable, and holds the anchor unless custom |
| Reporting.ParseWord | app/main.py:91-95 | the true words give true; the false words give false; anything else gives the default |
| Reporting.ParseBool | app/main.py:87-95 | a missing value gives the default; a present value is trimmed and lower-cased before it is read |
| Reporting.ParseBoolIgnoresPadding | app/main.py:90 | surrounding whitespace does not change the verdict |
| Reporting.TrueAndFalseWordsDisjoint | app/main.py:91-94 | no word is both true and false |
| Reporting.Clock | app/main.py:99-100 | hours, minutes under 60 and seconds under 60 that add back up to the total, with negative totals read as zero |
| Reporting.SecondsToHuman | app/main.py:98-105 | the text always has at least two characters |
| Reporting.HumanReadsBack | app/main.py:98-105 | the text reads back: its first number is the leading unit and the unit letter ends it; below an hour the total is recovered exactly, and from an hour on to the minute |
| Reporting.ClipSegment | app/main.py:166-178 | none exactly when the row and the range do not overlap; otherwise a non-empty segment inside both, with the row's app, title and source |
| Reporting.ClipIsIntersection | app/main.py:166-178 | a second lies in the clipped segment exactly when it lies both in the row and in the range |
| Reporting.IsAfkLabel | app/main.py:181-182 | an AFK label is never one of the placeholder names |
| Reporting.CategoryForApp | app/main.py:185-191 | AFK labels give "Inactividad"; "Proceso" and "Desconocido" give "No identificado"; any other label gives its trimmed entry in the category map, or "Sin categoría" |
| Reporting.CategoryIgnoresPadding | app/main.py:186 | surrounding whitespace in the label does not change the category |
| Reporting.AfkAndPlaceholderDisjoint | app/main.py:181-190 | no label is both an AFK label and a placeholder app |
| Reporting.SortedPayload | app/main.py:194-207 | one row per entry, in descending order of seconds, each with its human-readable time; the rows are a permutation of the dictionary's entries |
| Reporting.Credit | app/main.py:240-250 | crediting a segment keeps the dictionary's keys distinct |
| Reporting.Tallied | app/main.py:243-250 | the per-key totals of all attributed segments, with distinct keys |
| Reporting.TalliedSum | app/main.py:240-250 | the dictionary's total is the total time minus the unattributed time |
| Reporting.TalliedByApp | app/main.py:244 | an app's entry is the sum of the durations of that app's attributed segments |
| Reporting.Step | app/main.py:229-250 | one iteration of the loop keeps the dictionaries' keys distinct |
| Reporting.Fold | app/main.py:228-250 | the loop over all segments keeps the dictionaries' keys distinct |
| Reporting.FoldSeconds | app/main.py:228-242 | the loop's total, AFK and unattributed seconds are the sums over the segments, and active plus AFK is the total |
| Reporting.FoldTallies | app/main.py:243-250 | the loop's per-app, per-category and per-group dictionaries are the tallies of the attributed segments, grouped by category only when `group_by` is "category" |
| Reporting.FoldStep | app/main.py:228 | the loop over one more segment is one more iteration |
| Reporting.Account | app/main.py:229-250 | the imperative loop body computes exactly one iteration |
| Reporting.CreditAll | app/main.py:240-250 | the three dictionary updates of one iteration |
| Reporting.AccountAll | app/main.py:228-250 | the loop computes the fold of all segments |
| Reporting.BuildOverview | app/main.py:210-294 | every second counts once as active or AFK, and once either as unattributed or under its app, its category and its group, so every dictionary adds up to the attributed time; the app entries are the per-app sums; distinct app and category counts are the dictionaries' sizes; the top list is at most the first 50 rows of the sorted group payload |
| Reporting.LiveSegment | app/main.py:372-389 | the open session is shown only when "now" is in the range, the session is not private, and it has a positive clipped duration; it then runs from the later of its start and the range start up to now |
| WindowList.Redact | app/main.py:615-629 | a private window shows only the fixed placeholder values; a public window keeps all its fields |
| WindowList.PrivateWindowsIndistinguishable | app/main.py:616-626 | any two private windows are shown identically |
| WindowList.PublicWindowShownVerbatim | app/main.py:616-626 | a public window is shown unchanged and not marked private |
| WindowList.ShownAll | app/main.py:614-629 | one item per open window |
| WindowList.ShownAllAt | app/main.py:614-629 | the i-th item is the i-th window shown through the filter, and is private exactly when the filter excludes that window |
| WindowList.AppTally | app/main.py:619 | the per-app counts have distinct keys |
| WindowList.AppTallyCounts | app/main.py:612-619 | an app's count is the number of items shown under that app |
| WindowList.AppTallySum | app/main.py:612-619 | the counts add up to the number of items |
| WindowList.AppTallyKeys | app/main.py:612-619 | the counted apps are exactly the apps of the items |
| WindowList.PrivateWindowsCounted | app/main.py:615-619 | every private window is counted under "Privado" |
| WindowList.AppCounts | app/main.py:631-634 | the counts are listed in descending order and are a permutation of the dictionary |
| WindowList.AppCountsMeaning | app/main.py:612-634 | every listed count is the number of items of its app, and every item's app is listed |
| WindowList.ListWindows | app/main.py:607-654 | the items are the windows shown through the filter; the count is the number of windows; the distinct-app count is the number of distinct apps; the app counts are sorted; the active window is shown through the same filter |
| Detector.BackendName | app/detector.py:69-85 | every backend has a non-empty name |
| Detector.Priority | app/detector.py:69-85 | the preference order never lists "none" |
| Detector.PreferredBackend | app/detector.py:69-85 | "none" exactly when no backend in the session's order is usable; otherwise the first usable backend in that order |
| Detector.X11SessionPrefersX11 | app/detector.py:70-71 | an X11 session prefers x11 when xdotool and xprop are both present, and nothing otherwise |
| Detector.CapabilitiesOf | app/detector.py:64-99 | the tool flags, the KWin opt-in, the KWin check's outcome and the session type are reported as given; "wayland" only for a Wayland session; X11 detection exactly when xdotool and xprop are both present; native Wayland detection exactly when hyprctl is present or KWin is usable; the preferred backend is the first usable one and is usable |
| Detector.FirstFound | app/detector.py:112-137 | none exactly when every attempt found nothing; otherwise the first attempt that found a window |
| Detector.DetectX11First | app/detector.py:112-121 | X11 when xdotool and xprop are present, then Hyprland when hyprctl is; the first window found |
| Detector.X11FirstPrefersX11 | app/detector.py:113-116 | a window from X11 wins when X11 is usable |
| Detector.X11FirstNeedsABackend | app/detector.py:112-121 | without X11 tools and without hyprctl nothing is detected |
| Detector.Ttl | app/detector.py:287 | the cache lifetime is positive |
| Detector.CheckKwin | app/detector.py:280-307 | without gdbus or a running KWin the answer is no and the cache is untouched; a changed cache holds this probe's time and outcome, which is the answer; a yes needs gdbus and a running KWin |
| Detector.CachedOutcomeStands | app/detector.py:285-289 | a cached outcome younger than its lifetime is returned without probing |
| Detector.ExpiredOutcomeReprobed | app/detector.py:291-307 | with no cached outcome, or an expired one, the probe's outcome is returned and cached |
| Detector.SecondCheckRepeatsFirst | app/detector.py:284-307 | a probe's outcome is repeated within its lifetime; a failed probe is retried two seconds later |
| Detector.WindowDetector.constructor | app/detector.py:25-36 | the detector starts with the given tools and setting, and no cached probe |
| Detector.WindowDetector.CanUseKwinDbus | app/detector.py:280-307 | the answer and the new cache are those of `CheckKwin` on the old cache |
| Detector.WindowDetector.GetCapabilities | app/detector.py:64-99 | the capabilities are `CapabilitiesOf` with KWin usable only when enabled and the check passes; the cache is touched only when KWin is enabled |
| Detector.WindowDetector.DetectWaylandFirst | app/detector.py:123-137 | the first window found in the order Hyprland, KWin (when enabled and the check passes), X11; the KWin check, and so the cache, runs only when Hyprland found nothing |
| Detector.LabelOr | app/detector.py:176-180 | the trimmed label, or "Desconocido" when that is empty; never empty |
| Detector.HyprlandWindow | app/detector.py:166-182 | a window exactly when the output decoded; the app is the class, else the initial class, trimmed, else "Desconocido"; the title is trimmed |
| Detector.KwinWindow | app/detector.py:184-211 | a window exactly when there was output; the title is the caption; the app is the first non-empty of resourceClass, desktopFile and resourceName, else "Desconocido" |
| Detector.X11Window | app/detector.py:213-236 | a window exactly when xdotool named one; the title comes from WM_NAME; the app is the last WM_CLASS name when there is one, else the non-empty name of the process whose pid `_NET_WM_PID` gives, else "Desconocido" |
| Detector.X11WindowReadsXprop | app/detector.py:213-236 | typical xprop output gives the trimmed title and class, whatever the pid says |
| Detector.X11WindowFromClass | app/detector.py:224-236 | when WM_CLASS names an app, that app is used and the pid is not consulted |
| Detector.WmNameReadsTitle | app/detector.py:238-242 | the title in a `WM_NAME(STRING) = "…"` line is read back trimmed |
| Detector.WmClassReadsClass | app/detector.py:250-254 | the class in a `WM_CLASS(STRING) = "…", "…"` line is read back trimmed |
| ToolOutput.ExtractQuoted | app/detector.py:238-248 | never longer than the input; a non-empty result needs a quoted span or an '='; a quoted value comes back without surrounding whitespace |
| ToolOutput.QuotedSpan | app/detector.py:240 | a found span opens at or after the search start, and ends at the last quote on the opening quote's line |
| ToolOutput.QuotedSpanNone | app/detector.py:240-241 | no span exactly when no quote has a closing quote after it on its line |
| ToolOutput.QuotedSpanIsLeftmost | app/detector.py:240 | the span opens at the first quote that has a closing partner |
| ToolOutput.ExtractQuotedReadsValue | app/detector.py:238-242 | text with one opening quote and a closing quote at the end reads as the trimmed text between them |
| ToolOutput.ExtractQuotedOfSpan | app/detector.py:240-242 | when the pattern matches, the result is the trimmed captured group |
| ToolOutput.ExtractQuotedAfterEquals | app/detector.py:245-247 | without quotes, the text after the first '=' is trimmed and loses its surrounding apostrophes |
| ToolOutput.ExtractQuotedNothing | app/detector.py:238-248 | text with neither a quote nor '=' gives the empty string |
| ToolOutput.StripChar | app/detector.py:247 | removing a character from both ends leaves a piece of the input that does not start or end with that character |
| ToolOutput.StripCharNoop | app/detector.py:247 | text without the character is unchanged |
| ToolOutput.GroupsAreQuoteFree | app/detector.py:251 | every quoted group found is non-empty and has no quote inside |
| ToolOutput.ExtractLastQuoted | app/detector.py:250-254 | the result holds no double quote and has no surrounding whitespace |
| ToolOutput.ExtractLastQuotedReadsClass | app/detector.py:250-254 | of two quoted names, the last one is returned, trimmed |
| ToolOutput.TwoGroups | app/detector.py:250-254 | with exactly two quoted groups, the second is returned, trimmed |
| ToolOutput.ExtractLastQuotedNothing | app/detector.py:251-253 | text without quotes gives the empty string |
| ToolOutput.ExtractPid | app/detector.py:256-263 | no pid exactly when the text has no digit (`int()`'s digit limit aside) |
| ToolOutput.ExtractPidReadsPid | app/detector.py:256-263 | the first number after digit-free text is the pid; digit-free text has none |
| ToolOutput.ExtractVariantMapValue | app/detector.py:265-271 | the empty string when no entry for the key is found; otherwise a value without surrounding whitespace |
| ToolOutput.ValueEnd | app/detector.py:267 | the value ends at an apostrophe followed by '>' |
| ToolOutput.SearchValue | app/detector.py:267-268 | a match's value span lies inside the text |
| ToolOutput.UnescapeEscape | app/detector.py:271 | unescaping `\'` undoes escaping apostrophes |
| ToolOutput.ValueEndOverEscaped | app/detector.py:267 | the greedy match runs over an escaped value to the `'>` that closes it |
| ToolOutput.VariantValueRoundTrip | app/detector.py:265-271 | a value written as `'key': <'…'>` with its apostrophes escaped, after apostrophe-free text, reads back trimmed |
| ToolOutput.ReadEntryAt | app/detector.py:265-271 | an entry for the key, with no apostrophe before it, is the one read |
| ToolOutput.VariantValueAbsent | app/detector.py:268-270 | text without apostrophes gives the empty string |
| Idle.Normalize | app/idle.py:121-125 | negative readings give 0; readings under 1000 are kept as seconds; readings of 1000 or more are divided by 1000, rounding down |
| Idle.NormalizeBounded | app/idle.py:121-125 | the result never exceeds the reading, and is under 1000 unless the reading is at least a million |
| Idle.NormalizeJumpsAtThousand | app/idle.py:123-125 | 999 reads as 999 seconds and 1000 as one second |
| Idle.BodyValue | app/idle.py:132 | digit groups joined by single underscores are accepted, and nothing else |
| Idle.Ungroup | app/idle.py:132 | dropping the underscores leaves only digits, and leaves a plain digit string unchanged |
| Idle.ParseInt | app/idle.py:131-134 | blank text is not an integer, and an accepted text holds a digit |
| Idle.ParseIntRender | app/idle.py:131-132 | every integer written in decimal parses back to itself |
| Idle.ParseIntRejectsLetter | app/idle.py:131-134 | text with a letter inside is not an integer |
| Idle.ParseIntUnderscore | app/idle.py:132 | "1_500" parses as 1500, as Python's `int` does |
| Idle.XprintidleReading | app/idle.py:127-135 | a reading exactly when the tool gave output that parses as an integer; the reading is that integer normalized |
| Idle.CounterReading | app/idle.py:137-148 | a reading exactly when the output has a digit (`int()`'s digit limit aside); it is the first number, normalized |
| Idle.CounterReadsRendered | app/idle.py:137-148 | a number printed between digit-free text is read and normalized |
| Idle.IdleOutcome | app/idle.py:59-83 | the sample is stamped now and available exactly when it has a value; disabled gives "disabled"; nothing read gives "none" |
| Idle.IdleOutcomeIsFirstReading | app/idle.py:59-83 | an enabled detector records the first backend in order that gives a reading, or "none" |
| Idle.DisabledIgnoresBackends | app/idle.py:60-62 | a disabled detector's outcome does not depend on tools or outputs |
| Idle.BackendList | app/idle.py:30-36 | lists exactly the installed backends, never "none" or "disabled" |
| Idle.FirstInstalledBackend | app/idle.py:30-44 | the list is empty exactly when nothing is installed; its head is the first installed backend in trial order |
| Idle.AnsweringBackendIsListed | app/idle.py:29-83 | the backend that answered is installed; the preferred one answers when it gives a reading |
| Idle.IdleDetector.constructor | app/idle.py:21-27 | starts with the given setting and tools and an empty "none" sample |
| Idle.IdleDetector.Store | app/idle.py:85-92 | the last sample becomes the given reading, backend and availability, stamped now |
| Idle.IdleDetector.GetIdleSeconds | app/idle.py:59-83 | the stored sample is `IdleOutcome` and the returned value is its seconds |
| Idle.IdleDetector.Capabilities | app/idle.py:29-57 | backends are the installed ones in order; the preferred one is the first, else "none"; available exactly when enabled and something is installed; the last sample is reported as stored |

## Left out

- Threads, locks, the tracker's polling thread, `start` and the `running` flag in `status`: each method of a class is modelled as one atomic step.
- SQLite itself, `init`, and the schema's SQL: the table is a sequence of rows with an id counter, and the queries are functions over it.
- Everything outside the process: `time.time()`, `datetime.now()`, `subprocess`/`_run`, `shutil.which`, environment variables, `psutil`, `json.loads`. These are parameters: times, tool flags, command outputs (or `None` when a command failed), a KWin-running flag, a process-name function, and the decoded Hyprland fields.
- `_session_type` and `_is_kwin_running`: they only read the environment and processes, and their results are parameters.
- `detect`: the X11-first and Wayland-first orders it chooses between are modelled. For an unknown session it runs Wayland-first and then X11-first, probing X11 and Hyprland a second time; that repeat is not modelled.
- Regular expressions in privacy rules: the engine is abstract, with `compiles` and `search` as given functions. `IGNORECASE` is part of what `search` means.
- `str.casefold` and `str.lower` are modelled as ASCII lower-casing, `str.strip` with Python's whitespace set, and `\d` as the ASCII digits.
- Floats: the `percentage` field of `_sorted_payload`, and fractional timestamps. Times are integers except the KWin cache's clock and the tracker's polling interval (`ActivityTracker.intervalSeconds`), which are `real`s.
- Time zones and the Unix epoch: ranges are given as day numbers. `collect_segments` converts those days to timestamps, and that conversion is not modelled.
- The hour and day buckets of `_build_overview` (`by_hour_seconds`, `by_day`), which depend on the time zone.
- `None` arguments (`app or ""`): labels and titles are strings.
- ToolOutput.ExtractPid: Python's `int()` raises `ValueError` on a run of more than 4300 digits, which `_extract_pid` turns into `None` (`app/detector.py:262-263`); the model has no digit limit and reads any run.
- Idle.ParseInt: the same 4300-digit limit of `int()` is not modelled, so `Idle.XprintidleReading` accepts longer literals that `app/idle.py:133-134` would turn into `None`.
- Idle.CounterReading: the 4300-digit limit of `int()` is not modelled, so a longer first run of digits gives a reading where `app/idle.py:146-147` and `174-175` give `None`.
- Date arithmetic past 9999-12-31 raises Python's `OverflowError` from `timedelta` additions, and `ValueError` from the December rollover `replace(year=10000)` (`app/main.py:143`). Both are modelled as one `DateOutOfRange` error from `_resolve_range`.
- The default `limit=100` of `recent_sessions`: the model's `Recent` and `RecentSessions` always take the limit as an argument.
- The HTTP layer: FastAPI routes other than `/api/windows`, request validation, status codes, backup and restore, and CSV export.
- The idle threshold, privacy filter and pause controls that `create_app` hands to `ActivityTracker`: `app/tracker.py` accepts none of them and has no AFK or privacy logic. The model follows `app/tracker.py`.
- `/api/windows` as written raises `AttributeError`: `app/detector.py` defines no `WindowDetector.list_windows` (called at `app/main.py:610`), and `ActiveWindow` has no `pid` or `window_id` (read at `app/main.py:643-644`). The model describes the endpoint as evidently intended: the open windows and their fields are an input (`WindowInfo`).
- WindowList.ShownAll: its own contract states only the length; the per-window content is stated by `WindowList.ShownAllAt`.
- Detector.X11WindowReadsXprop: covers output where WM_CLASS names an app; the pid fallback through `psutil` is stated by `Detector.X11Window`.
- SessionStore.Overlapping: states order, length and membership, not a multiset equality. SQL leaves the order of rows with equal start times unspecified.
- SessionStore.Recent: SQL leaves the order of rows with equal end times unspecified. The contract states the order by end time and which rows are chosen, not how ties are broken.
- Reporting.SortedPayload: Python's `sorted` is stable, which keeps equal counts in insertion order; the contract states the descending order and the permutation, not the tie order.
- Text.Strip: stated by its shape (no surrounding whitespace, a slice of the input as `Text.StripSlice` says); `Text.TrimLeftSuffix` and `Text.TrimRightPrefix` say that only whitespace was removed.
