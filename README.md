# TubeTrend collection and ranking core, in Dafny

TubeTrend is a serverless handler backed by three D1 tables:
- Channels: id, title, country, category and thumbnail;
- ChannelStats: dated subscriber and view snapshots;
- LiveRankings: live streams per region.

It fills the tables from the YouTube Data API and serves rankings from them. Two Python scripts turn exported CSV files into the bundled `default_channels.js`.

This project models the following and proves their contracts:
- The handler's collection jobs:
  - mass discovery over nine categories;
  - the daily statistics sync in batches of 50;
  - the live-stream sync per region.
- The three read routes, `/api/ranking`, `/api/live-ranking` and `/api/channel-history`, as functions over table values.
- The helpers `getApiKey` and `getKSTDate`.
- The CSV row loops of both scripts, including:
  - skipping rows without a Channel ID;
  - the defaults they fill in;
  - Python's `int()`;
  - what happens when a row raises.

Modules:
- `Tables`: the table rows and the single SQL statements the handler issues, as functions on sequences of rows in rowid order.
- `Upstream`: the API requests and answers. The API is a function from request values to responses, passed in as a parameter. A response is either a rejected `fetch`/`json()` or the body's `items`, which may be absent.
- `Store.Database`: a class holding the three tables. Its methods `PerformMassDiscover`, `HandleDailySync` and `SyncLiveStreams` change the tables step by step, and each is proved to end in the state that a pure function describes:
  - `Discovery.Discover` for mass discovery;
  - `DailySync.ThumbAll` and `DailySync.StatAll` for the daily sync;
  - `LiveSync.SyncLive` for the live sync.

  Lemmas about those functions state the promised properties.
- `Ranking` and `Reads`: the three read queries. `ORDER BY … LIMIT n` is specified by `Ordering.IsTopN`, because SQL leaves the order of tied rows open. `Ordering.TopN` is one answer that meets it.
- `Calendar`: day numbers, ISO 8601 calendar dates (extended complete representation, section 4.1.2.2 of ISO 8601:2004) and `getKSTDate`. `Text` holds ECMAScript `split`, `join` and `trim`. `ApiKey` holds `getApiKey`.
- `PythonInt`: Python's `int()` on a str, and `str()`.
- `CsvRows`: the row loop both scripts share.
- `BackupConvert`: `convert_backup_csvs.py`.
- `CsvConvert`: `convert_csv.py`.

Three points of the handler's behaviour are easy to misread:
- **History.** `/api/channel-history` returns the channel's 7 earliest distinct dates in ascending order, because `LIMIT 7` follows `ORDER BY rank_date ASC` (src/index.js:62).
- **Growth.** It is measured against the calendar day before the channel's own latest snapshot date, not against the latest date of the whole table (src/index.js:48-51).
- **Rank.** The ranking query computes no rank number. Its rows come in `ORDER BY` order after all filters, the search filter included (src/index.js:33-54).

## Model

| member | source | states |
|---|---|---|
| ApiKey.PickIndex | src/index.js:5 | `Math.floor(Math.random() * n)` is a valid index into the key list |
| ApiKey.GetApiKey | src/index.js:2-6 | null exactly when the setting is unset or empty; otherwise the trimmed text of one comma-separated entry, with no comma in it |
| ApiKey.GetApiKeyReachesEveryKey | src/index.js:2-6 | every configured key is returned for some random value: the i-th entry, trimmed, for random = i/n |
| Text.SplitJoin | src/index.js:4 | joining the parts of `split(',')` gives back the setting, and no part contains a comma |
| Text.JoinSplit | src/index.js:4 | splitting a join of comma-free parts gives back the parts |
| Text.TrimSpec | src/index.js:5 | `trim()` returns a slice of its input with only white space cut from both ends, and the result neither starts nor ends with white space |
| Text.TrimIdempotent | src/index.js:5 | trimming twice is trimming once |
| Calendar.GetKstDate | src/index.js:8-11 | succeeds exactly when now + 9 h + k days is inside ECMAScript's time range; the text is the `toISOString` date of the UTC+9 day, parses back as that day, and for the years 0 to 9999 has the `YYYY-MM-DD` shape |
| Calendar.KstDateOffset | src/index.js:8-11 | for one clock reading, `getKSTDate(k)` names the date exactly k days after `getKSTDate(0)` |
| Calendar.KstDayShift | src/index.js:10 | adding k whole days to the instant adds k to the UTC day number |
| Calendar.DateOfDayNumber | src/index.js:11 | day numbers and valid calendar dates are in one-to-one correspondence |
| Calendar.FormatIsoRoundTrip | src/index.js:11 | the `YYYY-MM-DD` text of a date parses back to that date |
| Calendar.DayNumberOrder | src/index.js:62 | ordering rank dates by day number is ordering them by year, month and day |
| Calendar.TextBeforeConcat | src/index.js:44-52 | comparing texts whose heads have equal length: the heads decide, and only equal heads defer to the tails |
| Calendar.PadDigitsOrder | src/index.js:11 | zero-padded numerals of one width sort as text the way their values sort, and are equal exactly when the values are |
| Calendar.FormatIsoShape | src/index.js:11 | a date of the years 0 to 9999 prints as ten characters, `YYYY-MM-DD`: digits, with hyphens at positions 4 and 7 |
| Calendar.FormatIsoOrder | src/index.js:62 | for the years 0 to 9999, the text order of two `YYYY-MM-DD` dates is their calendar order, and equal texts are equal dates |
| Calendar.RankDateTextOrder | src/index.js:44-52 | for the years 0 to 9999, a rank date held as a day number compares as its stored text does, so `MAX(rank_date)` and `ORDER BY rank_date` on text agree with the day numbers |
| Tables.IdIndex | src/index.js:114 | finds the position of the row with an id, or reports that no row has it |
| Tables.UpsertCountrySpec | src/index.js:114 | `ON CONFLICT(id) DO UPDATE SET country`: a new id is appended, a known id only gets the new country, and ids stay unique |
| Tables.SetThumbnailSpec | src/index.js:131 | `UPDATE … SET thumbnail WHERE id`: same length, only the thumbnail of rows with that id changes |
| Tables.ReplaceStatSpec | src/index.js:132 | after `INSERT OR REPLACE` the key (channel, date) holds exactly the new row; every other key keeps its rows |
| Tables.ReplaceStatTwice | src/index.js:132 | writing one key twice leaves what writing only the second row leaves |
| Tables.ChannelRows | src/index.js:62 | `WHERE channel_id = ?` keeps exactly the rows of that channel |
| Tables.DeleteRegion | src/index.js:101 | `DELETE … WHERE region = ?` keeps exactly the rows of other regions |
| Tables.RegionRows | src/index.js:21 | `WHERE region = ?` keeps exactly the rows of that region |
| Tables.DeleteRegionRows | src/index.js:101 | after the delete the region has no rows and every other region keeps its rows in order |
| Discovery.ChannelOf | src/index.js:114 | the inserted row has the video's channel id, title and thumbnail, country = region and category = categoryId, or "0" when it is absent or empty |
| Discovery.UpsertGrows | src/index.js:114 | one upsert keeps ids unique, changes at most the country of the row with the video's channel id, leaves every other row as it was, and appends only the new channel's row |
| Discovery.UpsertAllSpec | src/index.js:113-115 | after one category's batch, every item's channel is present with country = region, every added row is an item's row, and only rows of channels an item names change |
| Discovery.DiscoverSpec | src/index.js:107-118 | the sweep over the categories grows the table the same way for every item returned, changes only rows of channels a returned item names, and completes exactly when no request rejects |
| Store.Database.PerformMassDiscover | src/index.js:107-118 | the category loop ends in the table `Discover` describes; ids stay unique; other tables are untouched |
| DailySync.ChunksSpec | src/index.js:122-123 | the batches concatenate back to the id list in order; each holds 1 to 50 ids and all but the last hold exactly 50 |
| DailySync.BuildChunks | src/index.js:122-123 | the push loop builds exactly those batches |
| DailySync.StatOf | src/index.js:132 | the snapshot holds the item's id and today's date, and each count, or 0 when the count is absent |
| DailySync.LastWith | src/index.js:130-134 | finds the last returned item for an id (no later item has that id), or reports that none was returned |
| DailySync.ThumbAllSpec | src/index.js:131 | the thumbnail updates insert no channel and change only thumbnails, each to the last returned item's thumbnail for that id |
| DailySync.StatAllSpec | src/index.js:130-134 | after the sync, (id, today) holds exactly one row, from the last item returned for id; every other key is unchanged |
| DailySync.SyncStep | src/index.js:125-129 | one batch: a rejected request stops the sync; an answer without items writes nothing |
| DailySync.SyncAdvance | src/index.js:125-135 | past an answered batch, the items written so far grow by exactly that batch's items |
| Store.Database.WriteBatch | src/index.js:130-134 | one batch of writes ends in the state `ThumbAll` and `StatAll` give for its items |
| Store.Database.SyncChunks | src/index.js:125-136 | the batch loop ends in the state of all items returned up to the first rejected request |
| Store.Database.HandleDailySync | src/index.js:120-137 | an unprintable clock throws before any write; otherwise the thumbnails and today's snapshots come from the items returned for the 50-id batches of the ids in rowid order, and LiveRankings is untouched |
| LiveSync.RegionQuery | src/index.js:87-91 | KR, JP, BR and IN get their own keyword and language; every other region searches "live" in English |
| LiveSync.RegionLanguages | src/index.js:87-91 | each of the four named regions has a language no other region gets |
| LiveSync.LiveRowOf | src/index.js:102 | the inserted row copies channel title, video title and video id, takes the region, has viewers = concurrentViewers or 0, and takes the high thumbnail when it is present and non-empty, the default thumbnail otherwise |
| LiveSync.LiveRowsOf | src/index.js:102 | one row per returned video, in order |
| LiveSync.SyncLiveReplaces | src/index.js:97-103 | when the search found videos and the details lookup answered, the region holds exactly one row per video and other regions are unchanged |
| LiveSync.SyncLiveNoResults | src/index.js:97 | a search with no items changes nothing |
| LiveSync.SyncLiveTwice | src/index.js:101-103 | of two successive runs for a region, only the second run's rows remain for it |
| Store.Database.SyncLiveStreams | src/index.js:85-105 | the search, details lookup, delete and inserts end in the state `SyncLive` describes; Channels and ChannelStats are untouched |
| Ordering.Insert | src/index.js:54 | inserting into the ordered list adds exactly that row |
| Ordering.InsertSorted | src/index.js:54 | inserting into a list sorted by descending key keeps it sorted |
| Ordering.SortDesc | src/index.js:54 | sorting permutes the rows |
| Ordering.SortDescSorted | src/index.js:54 | the sorted rows are in descending key order |
| Ordering.TopNSpec | src/index.js:54 | the first n sorted rows are a correct `ORDER BY … DESC LIMIT n`: sorted, drawn from the rows, min(n, count) long, and no row left out ranks above a row kept |
| Ordering.SortedSplit | src/index.js:54 | in a sorted list, no row after the cut sorts before a row up to it |
| Ranking.RankingParams | src/index.js:16-30 | region defaults to "KR", sort to "growth", category to "all" when absent or empty; search defaults to "" |
| Ranking.LatestDate | src/index.js:49 | the channel's latest snapshot date is one of its dates and no date is later |
| Ranking.MaxOn | src/index.js:43-46 | the largest figure among a channel's rows of a date, or none when that date has no row |
| Ranking.Since | src/index.js:45-46 | growth is null exactly when yesterday's figure is; otherwise growth + yesterday = today |
| Ranking.RankRowOf | src/index.js:40-53 | a channel has a row exactly when it has a snapshot; the row copies its id, title, category, country and thumbnail |
| Ranking.RankRowSpec | src/index.js:40-53 | the row's current figures are the maxima on the channel's own latest date, and its growth is measured against the day before, null when that day has no row |
| Ranking.CandidateOf | src/index.js:33-37 | a channel contributes one row exactly when it passes the region, category and title filters and has a snapshot |
| Ranking.Candidates | src/index.js:40-53 | there are no more candidate rows than channels |
| Ranking.CandidatesMembers | src/index.js:33-53 | the candidate rows are exactly the rows of matching channels that have snapshots |
| Ranking.CandidateIds | src/index.js:53 | every candidate row's id is a Channels id |
| Ranking.CandidatesDistinct | src/index.js:53 | `GROUP BY c.id`: each channel appears at most once |
| Ranking.RankingQuerySpec | src/index.js:38-54 | a correct ordering of the candidates with at most 100 rows and no channel twice; with at most 100 candidates, all of them are returned |
| Ranking.RankOrderMeaning | src/index.js:38 | sort "views": current_views never increases; otherwise growth never increases, null growth comes last, and ties are broken by current_subs |
| Reads.LiveRanking | src/index.js:19-22 | one answer row per picked LiveRankings row |
| Reads.LiveRankingSpec | src/index.js:18-23 | min(50, rows of the region) rows, each showing a row of that region, viewers non-increasing, and no row left out has more viewers than a row shown |
| Reads.LivePickedRows | src/index.js:19-22 | the picked rows are a correct `ORDER BY viewers DESC LIMIT 50` of the region's rows, each a row of that region |
| Reads.LivePickedViewers | src/index.js:21 | viewers never increase down the picked rows, and no row left out has more viewers than a picked one |
| Reads.ByDate | src/index.js:62 | ordering by date permutes the channel's rows |
| Reads.ByDateAscending | src/index.js:62 | the rows come in ascending date order |
| Reads.DedupAscending | src/index.js:62 | grouping rows that are in date order leaves strictly ascending dates |
| Reads.DedupCovers | src/index.js:62 | grouping keeps every date |
| Reads.DedupMembers | src/index.js:62 | grouping keeps only rows of the input |
| Reads.DateGroupsSpec | src/index.js:62 | one row per date of the channel, dates strictly ascending, every date present |
| Reads.HistorySpec | src/index.js:60-63 | at most 7 rows, each one of the channel's snapshots, with strictly ascending dates; they are the earliest dates, since any date not shown is later than all 7; with no id the answer is empty |
| PythonInt.LStrip | convert_backup_csvs.py:25 | removes exactly the leading white space that `int()` skips: tab to carriage return, space, and the non-ASCII characters for which `str.isspace()` holds |
| PythonInt.RStrip | convert_backup_csvs.py:25 | removes exactly the trailing white space that `int()` skips, the same characters as `LStrip` |
| PythonInt.Numeral | convert_backup_csvs.py:25-26 | an unsigned numeral is accepted exactly when it is digits with single underscores between digits, and has at most 4300 digits |
| PythonInt.PyInt | convert_backup_csvs.py:25-26 | a cell of white space only is rejected |
| PythonInt.PyIntStr | convert_backup_csvs.py:25-26 | `int(str(n)) == n` whenever `str(n)` does not raise, also with white space around the numeral |
| PythonInt.PyIntValue | convert_backup_csvs.py:25-26 | an optionally signed numeral with white space around it converts to its value with the sign applied, and is rejected when it has more than 4300 digits |
| PythonInt.PyIntShape | convert_backup_csvs.py:25-26 | every accepted cell is white space, an optional sign, a numeral of at most 4300 digits and white space |
| PythonInt.StripDigitEnds | convert_backup_csvs.py:25-26 | a cell that starts and ends with a digit is accepted exactly when it is digit groups of at most 4300 digits |
| PythonInt.PyIntRejectsInnerSpace | convert_backup_csvs.py:25-26 | a space between digits makes `int()` raise |
| PythonInt.PyIntRejectsSeparatorPad | convert_backup_csvs.py:25-26 | a numeral led by one of U+001C..U+001F makes `int()` raise: `str.isspace()` holds for these separators, but `int()` does not skip them |
| PythonInt.PyIntRejectsDoubleUnderscore | convert_backup_csvs.py:25-26 | two underscores in a row make `int()` raise |
| CsvRows.Get | convert_backup_csvs.py:20-26 | `row[key]` gives the cell, or KeyError for a column the header lacks |
| CsvRows.IntOrZero | convert_backup_csvs.py:25-26 | an absent or empty cell gives 0; otherwise the value `int()` gives, or ValueError when `int()` rejects the cell |
| CsvRows.RankingRecordOf | convert_backup_csvs.py:19-27 | a record exactly when the four columns exist and both counts convert; it copies id, title and country, has category "0", thumbnail "" and the converted counts; a missing Channel Name raises KeyError first |
| CsvRows.LiveRecordOf | convert_backup_csvs.py:41-45 | a record exactly when both columns exist; id and title are copied; last_live_date is the cell, or None when absent or empty |
| CsvRows.RankingRecordRoundTrip | convert_backup_csvs.py:19-27 | a row written from a channel's figures reads back as those figures with the defaults |
| CsvRows.IntOrZeroStr | convert_backup_csvs.py:25 | a cell holding `str(n)` converts to n, for any n that `str()` can print |
| CsvRows.Kept | convert_backup_csvs.py:17-18 | a row is kept exactly when it has a Channel ID: the kept rows all have one and come from the input, every input row with one is kept, and there are no more of them |
| CsvRows.KeptConcat | convert_backup_csvs.py:17-18 | skipping keeps the rows' order |
| CsvRows.RecordsOfSpec | convert_backup_csvs.py:17-27 | the records come one per kept row from a prefix of the kept rows, in order; the loop raises exactly when some kept row's record raises, and then it raises that row's exception |
| CsvRows.RecordsOfBuilt | convert_backup_csvs.py:17-27 | the i-th record is built from the i-th kept row, and there are no more records than kept rows |
| CsvRows.RecordsOfStop | convert_backup_csvs.py:17-27 | the loop runs to the end exactly when no kept row raises; otherwise it stops at the first kept row that raises, with that row's exception |
| CsvRows.RecordsOfConcat | convert_backup_csvs.py:17-27 | rows that raise nothing leave the loop running into the rows after them |
| CsvRows.Collect | convert_backup_csvs.py:17-27 | the append loop produces the records and the exception `RecordsOf` describes |
| BackupConvert.Loaded | convert_backup_csvs.py:14-30 | a missing file leaves its list empty |
| BackupConvert.LoadFile | convert_backup_csvs.py:13-32 | one try block leaves the records appended before it ended |
| BackupConvert.LoadedSpec | convert_backup_csvs.py:34-50 | a try block keeps one record per kept row of a prefix of them, and all of them when no row raises |
| BackupConvert.BackupOutput | convert_backup_csvs.py:54-56 | the output defines RANKING_DATA, then LIVE_DATA |
| BackupConvert.BackupOutputSpec | convert_backup_csvs.py:13-56 | ranking records carry the kept rows' ids, category "0" and thumbnail ""; LIVE_DATA does not depend on the ranking file |
| BackupConvert.RankingStopsAtRaisingRow | convert_backup_csvs.py:13-32 | a raising ranking row keeps the records before it and ends the loop |
| BackupConvert.ConvertBackup | convert_backup_csvs.py:9-57 | the script's two try blocks produce `BackupOutput` |
| CsvConvert.CsvOutput | convert_csv.py:10-38 | no output for a missing file; when there is output, it is a single DEFAULT_CHANNELS export |
| CsvConvert.ConvertCsv | convert_csv.py:10-38 | the script produces `CsvOutput` |
| CsvConvert.CsvOutputSpec | convert_csv.py:10-38 | all or nothing: output exactly when the file exists and no kept row raises, and then one record per kept row, in order |
| CsvConvert.AgreesWithBackup | convert_csv.py:19-27 | on a file that raises nothing, DEFAULT_CHANNELS equals the backup script's RANKING_DATA |
| CsvConvert.RaisingRowLosesAll | convert_csv.py:10-38 | one raising row means no output at all, even with good rows before it |

## Left out

- The HTML page and its script, HTTP routing, Response construction, and the try/catch-to-500 wrappers of `fetch`. The routes are modelled by the queries they run.
- Outbound `fetch` and JSON parsing. The API is a function parameter, and a rejected `fetch` or `json()` is `NetworkError`.
- The key string in the request URLs. Requests are modelled by the fields that select their answer.
- JavaScript `parseInt` on the API's count strings. Counts are already natural numbers, or absent.
- Malformed API items are assumed away; each of these would raise a TypeError:
  - a missing `snippet`, `thumbnails` or `default` field;
  - a channels item without `statistics` (src/index.js:132);
  - a search item without `id` (src/index.js:98).
- D1 execution: SQL text, statement preparation, the batch's atomicity and batch errors.
  - An empty statement batch counts as an empty write.
  - The `DELETE` in `syncLiveStreams` is not atomic with its inserts; this is a concurrency concern. A details answer without `items` is modelled: the delete has run and the handler throws.
- SQLite `LIKE` wildcards. `%` and `_` inside the search text are taken literally, and case is folded for ASCII letters only.
- `GROUP BY rank_date` in the history query shows one row of each date, and SQLite does not say which. The history lemmas hold whichever row is taken.
- Store.Database.HandleDailySync: the ids are batched in Channels rowid order. `SELECT id FROM Channels` (src/index.js:121) has no `ORDER BY`, so SQLite may return them in another order, for example the order of the unique index on id. When a request rejects, which ids were already written depends on that order, and the model fixes one order.
- ChannelStats is assumed to carry `UNIQUE(channel_id, rank_date)`. `INSERT OR REPLACE` replaces only on a uniqueness conflict, and the table definition is not part of this model. `Tables.ReplaceStat` and the daily-sync lemmas rely on this key.
- rank_date is held as a day number. `Calendar.RankDateTextOrder` and `Calendar.FormatIsoRoundTrip` relate it to the stored `YYYY-MM-DD` text for the years 0 to 9999. Dates outside those years print with a signed six-digit year, and their text order is not modelled. SQLite's `DATE(x, '-1 day')` is taken to be the day number minus one.
- The 4300-digit limit of `int()` and `str()` is CPython's default from 3.11 on. Changing it through `sys.set_int_max_str_digits` or `PYTHONINTMAXSTRDIGITS`, or running an older interpreter without the limit, is not modelled.
- `Math.random` and `new Date()` are parameters: a real in [0, 1) and a millisecond count.
- Python file I/O and the existence test, `csv.DictReader` parsing, the UTF-8 BOM, `json.dumps` formatting, `print`, and writing the JS file.
  - A file is a list of rows, or absent.
  - A row is a map from header name to cell, with an absent cell for a short line.
  - A write failure is not modelled.
- Python `int()` on non-ASCII decimal digits. Only ASCII digits are accepted.
- PythonInt.PyInt: its own contract states only that white space alone is rejected. Acceptance and the value are stated by `PyIntValue`, which covers signed and padded numerals, and by `PyIntShape`, which covers every accepted cell.
- Ranking.Candidates: its own contract bounds only the count; membership is stated by `CandidatesMembers` and `CandidateOf`.
