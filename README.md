# Schulmanager Online integration — a Dafny model of its core

This project models the data path of the Home Assistant integration
`schulmanager_online`:

- the scraper's parsers, which turn the HTML of the homework page, the
  dashboard's exam table and the timetable into records;
- the letters client, which maps the API's JSON response to letter records
  and decides how a request ends;
- the update coordinator, which merges letters and scraped data into one
  snapshot;
- the sensors, which project that snapshot to a state and attributes.

Python's string operations are modelled as CPython defines them (`PyStr`):
- `split` (left to right, non-overlapping) and `split(sep, 1)`;
- `in`, `replace(c, "")`, `strip()` with the full `isspace` set, and `zfill(2)`;
- `str(n)`;
- `<` on strings, i.e. lexicographic order on code points.

Each parser catches the `IndexError` or `ValueError` its string steps raise.
The homework-block and exam-row parsers then return `None`, the lesson-cell
parser returns `""`. The lesson-cell parser returns Python's `None` only when
its changed-lesson branch finds no red or no green span and falls off its end.
The current year, today's date and the HTTP exchange are parameters.

Modules, one per file:

| file | module | models |
|---|---|---|
| `wrappers.dfy` | `Wrappers` | `Option`, `Result` and `Min` |
| `pystr.dfy` | `PyStr` | the Python string operations above |
| `scraper_text.dfy` | `ScraperText` | tag-text extraction, blank removal, the `D.M.Y` to `Y-MM-DD` date step |
| `homework.dfy` | `Homework` | `_parse_homework_block` and the block loop |
| `exams.dfy` | `Exams` | `_parse_exam_row` and the table/row loop |
| `timetable.dfy` | `Timetable` | `_parse_lesson_cell` and the seven-day assembly |
| `api.dfy` | `Api` | `_make_request`'s outcome, `get_letters`, `test_connection` |
| `coordinator.dfy` | `Coordinator` | `_async_update_data` and the update interval |
| `sensor.dfy` | `Sensor` | `native_value`, `extra_state_attributes`, the entity list |

Two places where the code does less than its own comments suggest; the model
follows the code:

- **Exam dates without a year.** The year step is commented "Add current year
  if not present" (scraper.py:225), so a date without a year, such as
  `12.11,` read in 2025, would be expected to become `2025-11-12`. The code
  first cuts the token at the comma, giving `12.11`. It then appends the year
  with no separator, giving `12.112025`. That has one dot, so the date step
  rejects it, and the time section is cut at a text that usually does not
  occur. Either way the row is discarded (`Exams.WithYearExample`,
  `Exams.ExamRowYearlessDiscarded`). Only a token that keeps a trailing dot,
  `12.11.`, becomes `2025-11-12` (`Exams.WithYearDottedExample`).
- **Changed-lesson separator.** The separator at scraper.py:305 is kept
  exactly as it stands in the source file: the three characters U+00E2,
  U+2020 and U+2019, with a blank on each side (`Timetable.Arrow`). It is not
  the arrow U+2192.

## Model

| member | source | states |
|---|---|---|
| ScraperText.TagText | custom_components/schulmanager_online/scraper.py:153 | `split(">")[1].split("<")[0]` succeeds exactly when the fragment has a `>`; the text then holds no `<` and no `>` |
| ScraperText.Compact | custom_components/schulmanager_online/scraper.py:232 | removing blanks and newlines leaves neither, and keeps every other character |
| ScraperText.FormatDate | custom_components/schulmanager_online/scraper.py:237-238 | a date is formatted exactly when it splits into three parts at its dots; the result then has at least six characters, month and day being padded to two |
| ScraperText.FormatDateAccepts | custom_components/schulmanager_online/scraper.py:165-166 | the date step accepts a date exactly when it holds two dots; any other part count raises and discards the block or row |
| ScraperText.FormatDateOfParts | custom_components/schulmanager_online/scraper.py:165-166 | `d.m.y` with dot-free parts becomes `y-zfill2(m)-zfill2(d)`, the year copied as it stands |
| ScraperText.FormatDateParts | custom_components/schulmanager_online/scraper.py:237-238 | conversely, an accepted date is `p0.p1.p2` with dot-free parts, and the result is built from them |
| ScraperText.FormatDateExample | custom_components/schulmanager_online/scraper.py:165-166 | `5.3.2025` becomes `2025-03-05` |
| ScraperText.FormatDateUnvalidated | custom_components/schulmanager_online/scraper.py:237-238 | nothing is validated and the year is not padded: `31.13.x` becomes `x-13-31` |
| Homework.BlockDate | custom_components/schulmanager_online/scraper.py:146 | the date text exists exactly when the block holds `", "`, and it is a single line |
| Homework.TagTexts | custom_components/schulmanager_online/scraper.py:149-162 | a successful subject or task list has one text per fragment |
| Homework.TagTextsSpec | custom_components/schulmanager_online/scraper.py:149-162 | the subject and task lists succeed exactly when every fragment has a `>`, and hold the tag texts position by position |
| Homework.Pair | custom_components/schulmanager_online/scraper.py:169-177 | pairing yields min(#subjects, #tasks) items |
| Homework.HomeworkBlock | custom_components/schulmanager_online/scraper.py:142-183 | a parsed block holds `", "`, and each of its items has the description `subject: task` |
| Homework.HomeworkBlockItems | custom_components/schulmanager_online/scraper.py:149-177 | a parsed block has min(#`<h4 ` fragments, #`<span ` fragments) items; item i pairs subject i with task i, carries the block's formatted date, and its description is `subject: task` |
| Homework.HomeworkBlockDiscarded | custom_components/schulmanager_online/scraper.py:144-183 | a block is discarded exactly when `", "` is missing, a subject or task fragment has no `>`, or the date does not have two dots |
| Homework.CollectTagTexts | custom_components/schulmanager_online/scraper.py:151-162 | the subject/task loop computes the tag-text list, stopping at the first fragment without `>` |
| Homework.PairItems | custom_components/schulmanager_online/scraper.py:169-177 | the item loop computes the pairing |
| Homework.ParseHomeworkBlock | custom_components/schulmanager_online/scraper.py:142-183 | `_parse_homework_block` equals the block specification |
| Homework.Flatten | custom_components/schulmanager_online/scraper.py:129-133 | when no block parses, no homework is collected |
| Homework.FlattenAppend | custom_components/schulmanager_online/scraper.py:129-133 | collecting the items of two runs of blocks concatenates them, so page order is kept |
| Homework.FlattenMember | custom_components/schulmanager_online/scraper.py:129-133 | an item is collected exactly when some successful block holds it |
| Homework.PageBlocks | custom_components/schulmanager_online/scraper.py:122-123 | a page has blocks exactly when it holds `tile">`, and no block holds `tile">` |
| Homework.BlockResults | custom_components/schulmanager_online/scraper.py:122-131 | one block result per `tile">` piece after the first |
| Homework.HomeworkPage | custom_components/schulmanager_online/scraper.py:121-136 | a page without `tile">` has no homework |
| Homework.HomeworkPageMember | custom_components/schulmanager_online/scraper.py:121-136 | an item is on the page exactly when one of the page's blocks parses and yields it |
| Homework.CollectHomework | custom_components/schulmanager_online/scraper.py:129-133 | the block loop returns the items of the blocks that parse, in block order |
| Homework.ScrapeHomeworkPage | custom_components/schulmanager_online/scraper.py:121-136 | the scraped homework is the homework of the page, `[]` when it has no block |
| Exams.ExamSubject | custom_components/schulmanager_online/scraper.py:219 | the subject is found exactly when the row has a `<strong ` piece that holds `>`; it then holds neither `<` nor `>` |
| Exams.ExamSubjectInRow | custom_components/schulmanager_online/scraper.py:219-222 | the subject is cut out of its own row, so the row contains it |
| Exams.AfterSubject | custom_components/schulmanager_online/scraper.py:222 | the text after the subject exists exactly when the subject is found and is not empty: only an empty subject makes the cut raise |
| Exams.ExamDateText | custom_components/schulmanager_online/scraper.py:223 | the date token is cut at the first comma and holds none |
| Exams.WithYear | custom_components/schulmanager_online/scraper.py:226-228 | the result contains the year's digits; it is the date unchanged exactly when the date already contains them, otherwise the date followed directly by the digits |
| Exams.BeginTime | custom_components/schulmanager_online/scraper.py:232 | the begin time holds no blanks and no newlines |
| Exams.EndTime | custom_components/schulmanager_online/scraper.py:233 | the end time is a single line |
| Exams.ExamDate | custom_components/schulmanager_online/scraper.py:223-228 | the date text exists exactly when the date token does, and is the token with the year added where missing; it is never empty |
| Exams.TimeSection | custom_components/schulmanager_online/scraper.py:231 | a time section exists only when the year-extended date text occurs after the subject |
| Exams.ExamTime | custom_components/schulmanager_online/scraper.py:232-234 | the time exists exactly when both the begin and the end time do, and is begin + ` - ` + end |
| Exams.ExamAfterSubject | custom_components/schulmanager_online/scraper.py:222-245 | a parsed exam's time is exactly the time (begin + ` - ` + end) of the section after the year-extended date, and its description is time + ` ` + subject; its date is the formatted extended date token, and that token occurs after the subject |
| Exams.ExamRow | custom_components/schulmanager_online/scraper.py:215-249 | an empty subject discards the row (the `split("")` ValueError); a parsed exam has the row's non-empty subject, the exact time of its time section, and description = time + ` ` + subject |
| Exams.ExamRowDate | custom_components/schulmanager_online/scraper.py:222-238 | a parsed exam's date is the formatted, year-extended date token, which contains the year and occurs after the subject |
| Exams.ExamRowTime | custom_components/schulmanager_online/scraper.py:231-234 | the time of a parsed exam is exactly the begin time of its time section + ` - ` + its end time |
| Exams.ExamRowTimeMissing | custom_components/schulmanager_online/scraper.py:231-249 | a row without a time section, or whose section lacks the begin or the end time, is discarded |
| Exams.ExamRowYearlessDiscarded | custom_components/schulmanager_online/scraper.py:226-231 | a date token without the year whose extended text does not occur after the subject discards the row |
| Exams.WithYearExample | custom_components/schulmanager_online/scraper.py:226-238 | `12.11` in 2025 becomes `12.112025`, which the date step rejects |
| Exams.WithYearDottedExample | custom_components/schulmanager_online/scraper.py:226-238 | `12.11.` in 2025 becomes `12.11.2025`, formatted `2025-11-12` |
| Exams.ExamRows | custom_components/schulmanager_online/scraper.py:194-200 | a page without `<table ` has no rows; no row contains `<tr ` |
| Exams.RowResults | custom_components/schulmanager_online/scraper.py:203-204 | one row result per row |
| Exams.Parsed | custom_components/schulmanager_online/scraper.py:202-206 | no more exams than rows |
| Exams.ParsedAppend | custom_components/schulmanager_online/scraper.py:202-206 | filtering two runs of rows is concatenation, so row order is kept |
| Exams.ParsedSpec | custom_components/schulmanager_online/scraper.py:202-206 | no more exams than rows; an exam is listed exactly when some row parses to it |
| Exams.ExamsPage | custom_components/schulmanager_online/scraper.py:192-209 | a page without `<table ` has no exams |
| Exams.CollectExams | custom_components/schulmanager_online/scraper.py:202-206 | the row loop returns the exams of the rows that parse, in row order |
| Exams.ScrapeExamsPage | custom_components/schulmanager_online/scraper.py:192-209 | the scraped exams are the exams of the page: `[]` without `<table `, else the parsed rows of the first table in order |
| Timetable.CellContent | custom_components/schulmanager_online/scraper.py:288 | the examined text holds no `</td>` |
| Timetable.CancelledLesson | custom_components/schulmanager_online/scraper.py:295-297 | the cancelled lesson's label holds no `</` |
| Timetable.ColouredText | custom_components/schulmanager_online/scraper.py:303-304 | the old and the new text are stripped |
| Timetable.ChangedLesson | custom_components/schulmanager_online/scraper.py:300-306 | the changed branch gives a label exactly when both the red and the green span occur, else Python's None |
| Timetable.TagField | custom_components/schulmanager_online/scraper.py:311-317 | each of lesson, teacher and room holds no blanks and no newlines |
| Timetable.LessonName | custom_components/schulmanager_online/scraper.py:310-311 | the lesson is found only after a `timetable-left">` marker |
| Timetable.Teacher | custom_components/schulmanager_online/scraper.py:313-314 | the teacher is found only after a `timetable-right">` marker |
| Timetable.Room | custom_components/schulmanager_online/scraper.py:316-317 | the room is found only after a `timetable-bottom">` marker |
| Timetable.RegularLesson | custom_components/schulmanager_online/scraper.py:310-319 | the regular label exists exactly when lesson, teacher and room are all found, and is a single line |
| Timetable.LessonCell | custom_components/schulmanager_online/scraper.py:285-326 | a cell without `span` before its first `</td>` gives `""` |
| Timetable.LessonCellNone | custom_components/schulmanager_online/scraper.py:293-306 | a cell is None exactly when it is a non-cancelled coloured-span cell without `Inter` that lacks the red or the green span |
| Timetable.LessonCellCancelled | custom_components/schulmanager_online/scraper.py:293-298 | a cancelled cell gives exactly `<del>` + the cancelled label + `</del>`, or `""` when a marker is missing |
| Timetable.LessonCellChanged | custom_components/schulmanager_online/scraper.py:300-305 | a changed cell with both colours gives old + separator + new, both stripped |
| Timetable.LessonCellRegular | custom_components/schulmanager_online/scraper.py:307-322 | every other cell with a span gives strip(lesson + ` ` + teacher + ` ` + room) when all three are found and `""` otherwise; a single line |
| Timetable.LessonCellCut | custom_components/schulmanager_online/scraper.py:288 | only the text before the first `</td>` matters |
| Timetable.TableText | custom_components/schulmanager_online/scraper.py:263 | the table text exists exactly when the page holds `<table`, and holds no `</table>` |
| Timetable.TableRows | custom_components/schulmanager_online/scraper.py:263-267 | no rows exactly when `<table` is missing or the table text has no `<tr>` (the second `del` raises); otherwise the `<tr>` pieces after the first two |
| Timetable.Columns | custom_components/schulmanager_online/scraper.py:273 | a row has at least one column piece |
| Timetable.DayCount | custom_components/schulmanager_online/scraper.py:274 | a row fills seven days when it has eight or more column pieces, otherwise one day fewer than its pieces |
| Timetable.DayColumn | custom_components/schulmanager_online/scraper.py:270-276 | a day holds at most one cell per row |
| Timetable.DayColumnSnoc | custom_components/schulmanager_online/scraper.py:272-276 | one more row appends its cell d+1 to day d exactly when the row reaches day d |
| Timetable.DayColumnBounds | custom_components/schulmanager_online/scraper.py:270-276 | each day holds at most one cell per row, and day lengths do not increase from Monday to Sunday |
| Timetable.DayColumnFull | custom_components/schulmanager_online/scraper.py:272-276 | when every row has eight column pieces, day d holds cell d+1 of every row, in row order |
| Timetable.Week | custom_components/schulmanager_online/scraper.py:262-283 | the timetable is `[]` exactly when the table cannot be cut out, and otherwise has seven days |
| Timetable.AddRow | custom_components/schulmanager_online/scraper.py:273-276 | the column loop appends cell d+1 to day d for each day the row reaches, and leaves the other days alone |
| Timetable.DayColumnsStep | custom_components/schulmanager_online/scraper.py:270-276 | one pass of the row loop turns the columns of the first i rows into the columns of the first i+1 rows, day by day |
| Timetable.FillDays | custom_components/schulmanager_online/scraper.py:270-276 | the in-place row loop yields seven day lists, day d holding cell d+1 of every row that reaches it, in row order |
| Timetable.ScrapeTimetable | custom_components/schulmanager_online/scraper.py:262-283 | the scraped timetable is the week of the page: `[]` when the table cannot be cut out, else the seven day lists |
| Api.MakeRequest | custom_components/schulmanager_online/api.py:54-68 | 401 gives the auth error; another status except 200 the API error; 200 the decoded body; client errors and timeouts the API error; success exactly for 200 with a decoded body |
| Api.MakeRequestAsWritten | custom_components/schulmanager_online/api.py:47-68 | as written, every failure other than a client error surfaces as NameError; successes agree with the intended decision |
| Api.MakeRequestAsWrittenDiffers | custom_components/schulmanager_online/api.py:65-68 | the two decisions differ exactly for non-200 statuses, the timeout and undecodable bodies, and there as NameError |
| Api.HasKey | custom_components/schulmanager_online/api.py:75 | `"results" in` a dictionary tests its keys |
| Api.Subscript | custom_components/schulmanager_online/api.py:75 | `response["results"]` succeeds exactly on a dictionary holding the key |
| Api.First | custom_components/schulmanager_online/api.py:78-86 | `v[0]` succeeds exactly on a non-empty list or string; otherwise it is the API error (IndexError, KeyError, TypeError) |
| Api.GetOr | custom_components/schulmanager_online/api.py:78-86 | `.get` succeeds exactly on a dictionary, otherwise AttributeError |
| Api.Entries | custom_components/schulmanager_online/api.py:81 | iterating a list visits its elements |
| Api.LetterOf | custom_components/schulmanager_online/api.py:82-87 | a letter comes only from a dictionary; `id`, `title`, `created_at` are copied from `id`, `title`, `createdAt`, None when absent; never the auth error |
| Api.LetterOfRead | custom_components/schulmanager_online/api.py:86 | `read` is true exactly when the first status has a truthy `readTimestamp`; no `studentStatuses` means unread; an empty list is the API error |
| Api.LettersOfEntries | custom_components/schulmanager_online/api.py:80-88 | a successful mapping has one letter per entry |
| Api.LettersOfEntriesSpec | custom_components/schulmanager_online/api.py:80-88 | the mapping succeeds exactly when every entry maps, with one letter per entry in order; never the auth error |
| Api.LettersOfEntriesFailureSticks | custom_components/schulmanager_online/api.py:80-94 | the first entry that raises decides the failure |
| Api.LettersOf | custom_components/schulmanager_online/api.py:75-94 | a response without `results`, or with falsy `results`, gives `[]`; the mapping never raises the auth error |
| Api.LettersOfData | custom_components/schulmanager_online/api.py:78-90 | `results[0]` without `data` gives `[]`; with a `data` list, the letters of its entries |
| Api.MapLetters | custom_components/schulmanager_online/api.py:80-90 | the loop computes the letter mapping |
| Api.GetLettersFrom | custom_components/schulmanager_online/api.py:72-73 | a failed request's error passes through, the auth error included |
| Api.GetLetters | custom_components/schulmanager_online/api.py:54-94 | `get_letters` raises the auth error exactly for a 401; other non-200 statuses, client errors and the timeout give the API error; letters come only from a 200 response with a decoded body, mapped by the letters mapping |
| Api.TestConnectionFrom | custom_components/schulmanager_online/api.py:96-104 | true exactly when `get_letters` completes, false exactly on the auth or the API error; anything else propagates |
| Api.TestConnectionRejectedToken | custom_components/schulmanager_online/api.py:96-104 | with the intended request, a 401 reads false |
| Api.TestConnectionAsWrittenRejectedToken | custom_components/schulmanager_online/api.py:54-104 | as written, a 401 raises NameError instead of reading false |
| Coordinator.UnreadCount | custom_components/schulmanager_online/__init__.py:93 | the unread count is at most the number of letters |
| Coordinator.UnreadCountAppend | custom_components/schulmanager_online/__init__.py:93 | unread counts add up over concatenation |
| Coordinator.UnreadCountExtremes | custom_components/schulmanager_online/__init__.py:93 | the count is 0 exactly when all letters are read, and the total exactly when none is |
| Coordinator.WithScraped | custom_components/schulmanager_online/__init__.py:101-106 | the merge adds exactly the four scraped keys, keeps the letter keys, and copies each scraped list that is present |
| Coordinator.DataUpdateCoordinator.constructor | custom_components/schulmanager_online/__init__.py:62-82 | the interval is 900 s with a scraper and 300 s without |
| Coordinator.DataUpdateCoordinator.UpdateData | custom_components/schulmanager_online/__init__.py:84-120 | letters come first: an API error is `UpdateFailed`, any other failure propagates, and neither calls the scraper. A snapshot has consistent letter counts. Without a scraper its keys are exactly `letters`, `unread_count`, `total_count`. With one, the four scraped lists are copied (default `[]`), or all `[]` on a scraper failure |
| Sensor.NoData | custom_components/schulmanager_online/sensor.py:80 | `not self.coordinator.data` holds exactly for no data or the empty dictionary |
| Sensor.NonEmptyDays | custom_components/schulmanager_online/sensor.py:96-99 | the days with lessons are at most the days, and none exactly when every day is empty |
| Sensor.NonEmptyDaysSelected | custom_components/schulmanager_online/sensor.py:96-99 | the count equals the length of `[day for day in timetable if day]` |
| Sensor.NonEmptyDaysBounds | custom_components/schulmanager_online/sensor.py:96-99 | the days with lessons number at most the days, all of them exactly when none is empty |
| Sensor.NativeValue | custom_components/schulmanager_online/sensor.py:77-101 | no value without data or for an unknown type; `letters` shows `total_count` (default 0), `unread_letters` `unread_count` (default 0), `homework`, `exams`, `appointments` the length of their list (default `[]`), `timetable` the number of non-empty days |
| Sensor.NativeValueLetters | custom_components/schulmanager_online/sensor.py:83-86 | on a published snapshot the letters sensor shows the number of letters and the unread sensor the unread ones, never more |
| Sensor.NativeValueTimetable | custom_components/schulmanager_online/sensor.py:96-99 | the timetable sensor shows at most the number of days, at most seven for a scraped week |
| Sensor.Select | custom_components/schulmanager_online/sensor.py:120-130 | the selection is no longer than the list, and every selected item is wanted |
| Sensor.SelectSpec | custom_components/schulmanager_online/sensor.py:120-130 | selection keeps exactly the wanted items and distributes over concatenation (order kept) |
| Sensor.SelectMember | custom_components/schulmanager_online/sensor.py:120-130 | an item is selected exactly when it is in the list and wanted |
| Sensor.UpcomingHomework | custom_components/schulmanager_online/sensor.py:120-123 | upcoming homework is no more than the homework, and each is dated at least today |
| Sensor.UpcomingExams | custom_components/schulmanager_online/sensor.py:127-130 | upcoming exams are no more than the exams, and each is dated at least today |
| Sensor.UpcomingHomeworkSpec | custom_components/schulmanager_online/sensor.py:120-123 | homework is upcoming exactly when its date is lexicographically at least today; homework due today is upcoming |
| Sensor.UpcomingExamsSpec | custom_components/schulmanager_online/sensor.py:127-130 | the same for exams |
| Sensor.UpcomingHomeworkShrinks | custom_components/schulmanager_online/sensor.py:120-123 | what is upcoming for a later day is upcoming today |
| Sensor.ExtraStateAttributes | custom_components/schulmanager_online/sensor.py:103-142 | no data gives `{}`; otherwise `last_update` plus, per type, the exact keys and values, with `upcoming_homework`/`upcoming_exams` the date-filtered lists and day i of the timetable under the i-th weekday name for i < min(7, #days); `unread_letters` and unknown types get `last_update` only |
| Sensor.DayKeysStep | custom_components/schulmanager_online/sensor.py:137-140 | one more day adds that day's weekday name while fewer than seven days were named, and nothing after that |
| Sensor.AddDayStep | custom_components/schulmanager_online/sensor.py:138-140 | one pass of the day loop keeps the keys equal to the base keys plus the names of the days seen, leaves the base entries alone, and maps each named day to its cells |
| Sensor.AddDayAttributes | custom_components/schulmanager_online/sensor.py:136-140 | the day loop adds exactly the first min(7, #days) weekday names, each mapped to its day, and keeps the other attributes |
| Sensor.SetupEntities | custom_components/schulmanager_online/sensor.py:40-57 | `letters` and `unread_letters` always; `homework`, `exams`, `appointments`, `timetable` exactly when scraping is enabled; known types, no duplicates |

## Left out

- Browser automation: driver set-up, login, navigation, waits, the
  `Hausaufgaben` retry and the driver lifecycle (scraper.py:39-120, 185-192,
  251-262, 328-370). It is foreign-library I/O. The parsers take the page HTML
  directly, and the coordinator takes the scraper's outcome as an input.
- HTTP transport: headers, request body, the session and the 10-second timeout
  (api.py:30-53). It is network I/O. What the transport delivered is an input
  (`Api.Transport`).
- config_flow.py, `async_setup_entry`/`async_unload_entry` of __init__.py, and
  the sensor's name, icon, unique id and `available`. These are host-framework
  plumbing. `last_update_success_time` is the placeholder `Sensor.LastUpdate`.
- The clock: `datetime.now()` becomes the `year` and `today` parameters.
- Logging.
- JSON numbers: integers only. Floating point is not modelled.
- The storage of the published snapshot. The host coordinator's handling of
  the exceptions a refresh raises is also left out; a refresh ends as
  `Coordinator.Refresh`.
- Sensor.UpcomingHomeworkSpec: the `""` default for a missing `date` key is
  not modelled. Homework and exam records always carry a date here, because
  the scraper always sets one.
- Api.Entries: for a non-empty dictionary the key order is not modelled. The
  loop body fails with AttributeError on the first key whatever that key is.
- Sensor.NativeValue: values are typed. A snapshot key always holds what the
  coordinator stores there, so Python's return of an arbitrary stored object
  is not modelled.

## Findings

| source | as written | input that shows it | evidently intended | confidence | as-written member | corrected member |
|---|---|---|---|---|---|---|
| custom_components/schulmanager_online/api.py:65-68 | api.py never imports `asyncio`. So every exception in the request block that is not an `aiohttp.ClientError` reaches `except asyncio.TimeoutError`, and evaluating that clause raises `NameError`. This covers the auth error, the API error, the timeout and a JSON decoding error | a response with status 401 (likewise any status other than 200, or the timeout) | 401 raises the auth error, so `test_connection` returns false; other statuses and the timeout raise the API error | high; not executed | Api.MakeRequestAsWritten, Api.TestConnectionAsWrittenRejectedToken | Api.MakeRequest, Api.TestConnectionRejectedToken |
