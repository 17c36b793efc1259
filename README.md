# lean-report core: S3 paths, backtest file classification, log compaction

This project models, in Dafny, the logic at the centre of the lean-report
dashboard, a viewer for the output folders of LEAN backtests that live
either on local disk or in an S3 bucket. It covers three parts:

- **S3 path handling** (`src/s3_utils.py`), in module `S3Paths`:
  - `normalize_path` is the method `NormalizePath`. It keeps the source's
    loop of `str.replace("//", "/")` and is proved to compute the one-pass
    function `NormalizedPath`.
  - `parse_s3_path` is `ParseS3Path`. The `ValueError` becomes a `Failure`
    value.
  - `make_s3_path` is `MakeS3Path`.
- **Backtest file classification**, in module `BacktestFiles`:
  - `FindBacktestFilesS3` is the categorisation part of
    `find_backtest_files_s3`, over the full list of key paths.
  - `FindBacktestFiles` is `find_backtest_files`, over the `*.json` and
    `*.txt` glob results.
  - Each of the seven categories is an independent list comprehension.
- **Log compaction**, in module `LogCompactor`:
  - This covers the grouping loop shared by `parse_log_file_s3` and
    `parse_log_file`.
  - `ParseLine` is the regular expression match that splits a line into
    timestamp and event text.
  - `Compacted` is the specification: it cuts the parsed lines into
    maximal runs of equal event text, from the front.
  - The method `GroupEvents` is the source's `for` loop over `last_event`,
    `last_start` and `last_end`. It is proved to return `Compacted`.
  - `ParseLogFileS3` adds the `[:n_lines]` cut.
  - `ParseLogFile` adds the cut and the `rstrip` of every line.

Module `PyStrings` defines the Python builtins these parts rely on:
`startswith`, `endswith`, `split`, `join`, `os.path.basename` and
`rstrip`. Its helper `IndexOf` is the position of the first separator,
which is where the first piece of a `split` ends. `Split`, `IndexOf`,
`Basename` and `RStrip` carry contracts that say what they compute.
`StartsWith`, `EndsWith` and `Join` are plain definitions.

Two points about the classifiers:

- **The classifier does not partition its input.** Each category is its
  own comprehension (src/s3_utils.py:127-156, src/utils.py:14-37).
  - So `data-monitor-report-x-summary.json` is in both `summary` and
    `monitor_report`, and `failed-data-requests-log.txt` is in both `log`
    and `failed_data_requests`.
  - `main` is the only list that excludes others.
  - The model proves the overlaps (`MonitorReportSummaryOverlap`,
    `FailedRequestsLogOverlap`) and the one exclusion.
- **Local and S3 classification differ in one test.** The local
  `find_backtest_files` takes `main` from the `*.json` glob, so its `main`
  test has no `.json` check (`IsMainJson`). The S3 version checks
  `.json` itself (`IsMainS3`).

## Model

| member | source | states |
|---|---|---|
| `S3Paths.NormalizePath` | src/s3_utils.py:25-33 | The replace-until-no-`//` loop, then dropping one trailing `/`, returns exactly `NormalizedPath(path)`. The loop keeps the collapsed form of the text and ends because each pass shortens it. |
| `S3Paths.NormalizedPath` | src/s3_utils.py:25-33 | A normalised path has no `//`, does not end with `/`, and is no longer than the input. |
| `S3Paths.CollapseSlashes` | src/s3_utils.py:28-29 | Every run of `/` becomes a single `/` in one pass. The result has no `//`, keeps the first character and is no longer than the input. |
| `S3Paths.NormalizedPathIdempotent` | src/s3_utils.py:25-33 | Normalising twice gives the same path as normalising once. |
| `S3Paths.NormalizedPathKeepsOtherCharacters` | src/s3_utils.py:27-32 | Normalising only removes slashes. Every other character stays, in order. |
| `S3Paths.HasDoubleSlash` | src/s3_utils.py:28 | `"//" in path` holds exactly when some `/` is directly followed by another `/`. |
| `S3Paths.ReplaceDoubleSlash` | src/s3_utils.py:29 | One `replace("//", "/")` pass keeps the first character and the collapsed form of the text, and it strictly shortens a text that holds `//`. |
| `S3Paths.ParseS3Path` | src/s3_utils.py:36-49 | Fails, with the `ValueError` message, exactly when the path does not start with `s3://`. Otherwise the bucket is the text up to the first `/` after the scheme and holds no `/`. The prefix is the normalised text after that `/`, or `""` when there is none. |
| `S3Paths.MakeS3Path` | src/s3_utils.py:52-56 | The built path starts with `s3://` and ends with `/` followed by the normalised key. |
| `S3Paths.ParseChildPath` | src/s3_utils.py:42-47 | Parsing `s3://bucket/tail` for a bucket without `/` gives that bucket and the normalised tail. |
| `S3Paths.ParseMakeRoundTrip` | src/s3_utils.py:36-56 | For a bucket without `/`, parsing a built path gives back the bucket and the normalised key. |
| `PyStrings.IndexOf` | src/s3_utils.py:43 | The position of the first `/`, or the length when there is none. No `/` comes before it. |
| `PyStrings.Split` | src/s3_utils.py:43-44 | `split` always gives at least one piece, and no piece holds the separator. |
| `PyStrings.JoinSplit` | src/s3_utils.py:44 | Joining the pieces of a split with the same separator gives back the text. |
| `PyStrings.SplitAtFirst` | src/s3_utils.py:43-44 | The first piece of the split is the text before the first `/`. Joining the other pieces gives the text after it, or `""` when there is no `/`. |
| `PyStrings.Basename` | src/s3_utils.py:134 | The basename is the suffix after the last `/` and holds no `/`. |
| `PyStrings.BasenameOfChild` | src/s3_utils.py:134 | The basename of `dir/name` is `name` when `name` holds no `/`. |
| `PyStrings.RStrip` | src/utils.py:57 | `rstrip()` returns the prefix that does not end in whitespace. Everything it removes is whitespace. |
| `BacktestFiles.Filter` | src/s3_utils.py:138 | A list comprehension keeps exactly the elements that pass its test, and no more elements than the input has. |
| `BacktestFiles.FindBacktestFilesS3` | src/s3_utils.py:127-166 | The result has exactly the seven categories. A path is in a category exactly when it is listed and passes that category's test. `main` shares no path with `summary`, `order_events` or `monitor_report`. Every listed `.json` path is in `main` or in one of those three. No category is longer than the listing. |
| `BacktestFiles.FindBacktestFilesS3Append` | src/s3_utils.py:127-156 | Each category is built path by path in input order: classifying a concatenated listing concatenates the classifications. |
| `BacktestFiles.FindBacktestFilesS3Single` | src/s3_utils.py:127-156 | A single path lands in exactly the categories whose test it passes. |
| `BacktestFiles.KeysDistinct` | src/s3_utils.py:158-166 | The seven string keys of the returned dictionary are distinct, so it has exactly seven entries. |
| `BacktestFiles.EmptyListingS3` | src/s3_utils.py:158-166 | An empty listing gives the seven categories, all empty. |
| `BacktestFiles.MonitorReportSummaryOverlap` | src/s3_utils.py:138-144 | A monitor report whose name ends in `-summary.json` is in both `summary` and `monitor_report`, and not in `main`. |
| `BacktestFiles.FailedRequestsLogOverlap` | src/s3_utils.py:146-151 | A failed-requests file whose name ends in `-log.txt` is in both `log` and `failed_data_requests`, and not in `main`. |
| `BacktestFiles.OverlapExamples` | src/s3_utils.py:138-151 | `dir/data-monitor-report-x-summary.json` and `dir/failed-data-requests-log.txt` each land in two categories. |
| `BacktestFiles.FindBacktestFiles` | src/utils.py:12-47 | The result has exactly the seven categories. `main`, `summary`, `order_events` and `monitor_report` hold exactly the `*.json` paths that pass their tests. `log`, `failed_data_requests` and `succeeded_data_requests` hold exactly the `*.txt` paths that pass theirs. No category is longer than its glob list. |
| `BacktestFiles.FindBacktestFilesAppend` | src/utils.py:12-37 | Each category is built path by path, in the order of its glob list. |
| `BacktestFiles.FindBacktestFilesSingle` | src/utils.py:14-37 | With at most one path per glob, a category holds its glob's path exactly once when that path passes the category's test, and nothing otherwise. With `FindBacktestFilesAppend`, each category is exactly the order-preserving subsequence of its glob list. |
| `BacktestFiles.JsonFilesAreCovered` | src/utils.py:14-27 | A path is in the `*.json` list exactly when it is in `main` or in one of `summary`, `order_events`, `monitor_report`. `main` shares no path with those three. |
| `BacktestFiles.EmptyFolder` | src/utils.py:39-47 | Two empty glob results give the seven categories, all empty. |
| `LogCompactor.LeadingSpaces` | src/s3_utils.py:187 | The greedy `\s+` takes the longest run of whitespace at the start of the text. |
| `LogCompactor.ParseLine` | src/s3_utils.py:187-191 | A line gets a timestamp exactly when it matches the pattern. Then the timestamp is well formed and starts the line, the event ends the line, at least one whitespace character lies between them, and the event does not start with whitespace. A line that does not match gives `""` and the whole line as event. |
| `LogCompactor.MatchesLinePatternIff` | src/s3_utils.py:187-188 | `MatchesLinePattern`, the condition under which `re.match` succeeds, holds exactly when the line starts with a well-formed timestamp and the `\s+` after it takes at least one character. |
| `LogCompactor.ParseFormattedLine` | src/s3_utils.py:187-189 | A timestamp, whitespace, then an event that does not start with whitespace parses back to exactly that timestamp and event. |
| `LogCompactor.Take` | src/s3_utils.py:177 | `lines[:n]` is the prefix of length `min(n, len(lines))`. |
| `LogCompactor.RunEnd` | src/s3_utils.py:193-194 | A run of event text goes on as long as the event text is equal, and it stops at the first line with other event text. |
| `LogCompactor.Compacted` | src/s3_utils.py:193-212 | The reference definition the loop is proved against: one entry per maximal run of equal event text. There are at most as many entries as lines, and none only for no lines. The first entry carries the first line's event text. |
| `LogCompactor.GroupEvents` | src/s3_utils.py:179-212 | The grouping loop, with its closing of the last group, returns exactly the compacted log of the parsed lines. |
| `LogCompactor.LogSummaryS3` | src/s3_utils.py:177-214 | What `parse_log_file_s3` returns: at most `n_lines` entries, and at most one per line. The result is empty exactly when `n_lines` is 0 or there is no line. |
| `LogCompactor.ParseLogFileS3` | src/s3_utils.py:174-214 | `parse_log_file_s3` returns the compacted log of its first `n_lines` lines. |
| `LogCompactor.StripLines` | src/utils.py:57 | Every line of `readlines` is right-stripped, and the stripped lines hold no line feed. |
| `LogCompactor.LogSummary` | src/utils.py:57-86 | What `parse_log_file` returns, with the same bounds: at most `n_lines` entries and at most one per line, empty exactly when `n_lines` is 0 or there is no line. |
| `LogCompactor.ParseLogFile` | src/utils.py:50-86 | `parse_log_file` returns the compacted log of its first `n_lines` lines, right-stripped. |
| `LogCompactor.LogSummaryIsS3OfStripped` | src/utils.py:55-86 | `parse_log_file` gives what `parse_log_file_s3` gives for the right-stripped lines. |
| `LogCompactor.CompactedFromShape` | src/s3_utils.py:193-212 | From any line on, there is at most one entry per line. There is no entry only when there is no line. The first entry carries the first line's event text. |
| `LogCompactor.FirstLineOpensEntry` | src/s3_utils.py:180-204 | The first line always opens an entry with its own event text, even when that text is `""`. |
| `LogCompactor.CompactedNoAdjacentRepeats` | src/s3_utils.py:193-212 | No two adjacent entries carry the same event text. |
| `LogCompactor.EventColumnIsDestutter` | src/s3_utils.py:193-212 | The event column of the result is the lines' event texts with consecutive repeats collapsed. Grouping is by adjacency only. |
| `LogCompactor.LastStampIsLastNonEmpty` | src/s3_utils.py:193-194 | `last_end` is the timestamp of the run's last line that has one, or `""` when no line of the run has one. Lines without a timestamp do not erase it. |
| `LogCompactor.LastAt` | src/s3_utils.py:193-194 | When line `j` is the last line of the run with a timestamp, `last_end` at the end of the run is that line's timestamp. |
| `LogCompactor.DatetimeRangeCases` | src/s3_utils.py:197-200 | `DatetimeRange`, the `dt_range` conditional, gives `""` when the run starts without a timestamp. It gives `"start ... end"` exactly when both are present and differ, and `start` otherwise. |
| `LogCompactor.RunEntryDatetime` | src/s3_utils.py:196-200 | A run's `datetime` is `""` when its first line has no timestamp, even if later lines have one. It is the first timestamp when every timestamp of the run equals it. When the first timestamp and the run's last timestamp are both present and differ, it is `"first ... last"`. In every case it is either the first timestamp or such a range. |
| `LogCompactor.ConsecutiveLinesMerge` | src/s3_utils.py:184-212 | Two timestamped lines with equal event text and different timestamps merge into `"t0 ... t1"`. A following line with other event text opens an entry with its own timestamp. |
| `LogCompactor.ConsecutiveMergeExample` | src/s3_utils.py:184-212 | The three lines `2024-01-01 00:00:00 A`, `2024-01-01 00:00:01 A`, `2024-01-01 00:00:05 B` give `("2024-01-01 00:00:00 ... 2024-01-01 00:00:01", "A")` and `("2024-01-01 00:00:05", "B")`. |
| `LogCompactor.NonAdjacentRepeatsStaySeparate` | src/s3_utils.py:184-212 | Lines without timestamps whose event texts are A, B, A give three entries. |
| `LogCompactor.UntimedStartHidesLaterStamp` | src/s3_utils.py:193-200 | A run whose first line has no timestamp reports `""`, even though its second line has one. |
| `LogCompactor.PlainLineKeptWhole` | src/s3_utils.py:184-214 | A sole line without a timestamp gives one entry: `""` and the whole line. |
| `LogCompactor.PlainRawLineStripped` | src/utils.py:57-66 | For `parse_log_file`, a sole line without a timestamp gives `""` and the right-stripped line. |
| `LogCompactor.PlainMessageExample` | src/utils.py:57-85 | `plain message` gives `[("", "plain message")]` in both parsers, and a sole empty line gives `[("", "")]`. |

## Left out

- The S3 client and every call through it are left out, because their
  results are inputs here: `get_s3_client`, `list_s3_directories`,
  `read_s3_file`, `read_s3_json` and the paginator loop that builds
  `all_files`.
- `glob.glob` and `open` are left out: their results, in whatever order
  the filesystem gives, are inputs.
- UTF-8 decoding and JSON parsing are not part of this model.
- Splitting text into lines (`splitlines`, `readlines`) is not modelled.
  The lines are inputs.
  - S3 lines may hold anything but a line feed.
  - Local lines may end with one.
  - `splitlines` also splits at other line boundaries, so real inputs are
    a special case of the allowed ones.
- The regular expression's `\d` and `\s`, and `str.rstrip`, are narrowed
  to ASCII:
  - `\d` is the digits 0-9;
  - `\s` and `rstrip` use Python's ASCII whitespace: space, tab, line feed,
    vertical tab, form feed, carriage return and the separators U+001C to
    U+001F;
  - Python also accepts other Unicode digits and whitespace, such as
    U+0085 and U+00A0.
- `os.path.basename` is modelled with POSIX semantics only (`/` as the
  separator).
- A negative `n_lines` is excluded by its type (`nat`). Python's slicing
  would count it from the end.
- The `logger.error` call and the re-raise around `find_backtest_files_s3`
  are left out. The categorisation itself raises nothing.
- `src/app.py` (the Streamlit interface) and `src/plot_utils.py` (plotting
  and value formatting) are not part of this model.
- The result dictionaries are modelled as values:
  - `{"datetime": ..., "event": ...}` is the datatype `LogEntry`;
  - the classifier's dictionary is a map from `Category` to a list, and
    `Key` gives each category's string key (`KeysDistinct`: no two share one).
