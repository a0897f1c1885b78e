# logit, modelled in Dafny

logit is a small Python logging library. It has five severity levels, a logger
object that holds a minimum level and a log-file path, and a line formatter that
joins "prefix producers", the message and "suffix producers" with `" | "`. It also
keeps an application-data ledger that records when each log file was last rotated,
and has helpers that archive a log file under a dated name and load structured
JSON and XML logs. Parsers turn human strings such as `"5d"` and `"5mb"` into
seconds and kilobytes, and a helper strips ANSI escape sequences from text.

The model has one Dafny module per source file, plus two shared modules:

| module | source | form |
|---|---|---|
| `Errors` | — | the Python exceptions the code raises, `Result` and `Option` |
| `Levels` | logit/_enums.py | datatype `Level`; lookup and rank as functions |
| `Logging` | logit/_logger.py | class `Logger` with the two mutable fields |
| `Output` | logit/output.py | `OutputBuilder` as a method with the source's two loops, proved against the function `Line` and the reference `Join` |
| `Units` | logit/_time.py, logit/_space.py | the digit-prefix split (a loop, as in the source), the letter count, `int()` on digits |
| `Durations` | logit/_time.py | the duration parser, as written and as intended |
| `Sizes` | logit/_space.py | the size parser, as written, literally with the letters counted, and as intended |
| `Ansi` | logit/_helper.py | `escape_ansi` as a left-to-right scanner: each match step is proved sound and complete against a declarative description of an escape sequence, a character at which no complete sequence starts is proved kept, and the output is a subsequence of the input |
| `Data` | logit/_data.py | class `AppData` holding the cached ledger, the configuration file and an abstract file system |

The duration and size modules share `Units` because the two source files hold
identical copies of the split helper. Where the Python code raises an exception,
the model returns an `Err` naming the exception class. ValueError, KeyError and
TypeError carry the message or key Python gives. A missing file carries only its
path, and an XML document that does not parse is a single `XmlParseError` with the
path, not the message of `xml.etree.ElementTree.ParseError`.

## Model

| member | source | states |
|---|---|---|
| Levels.ToLower | logit/_enums.py:16-20 | lower-casing keeps the length and maps each character on its own |
| Levels.ValueIsLowerName | logit/_enums.py:16-20 | each variant's value is its member name in lower case (`auto()` in a `StrEnum`) |
| Levels.ValueInjective | logit/_enums.py:16-20 | two variants have the same value exactly when they are the same variant |
| Levels.InverseOfSize | logit/_enums.py:32 | the comprehension has at most one entry per listed variant, since a later variant with the same value replaces the earlier one |
| Levels.InverseOfBindsValues | logit/_enums.py:32 | the dict comprehension's keys are exactly the values of the listed variants, and each key maps to a listed variant with that value |
| Levels.InverseOfDeclared | logit/_enums.py:32 | the comprehension over `tuple(Level)` maps each variant's value to that variant |
| Levels.InversedDict | logit/_enums.py:22-32 | the inverse dict has exactly the five keys "clutter" … "error", so five entries, and maps each variant's value back to that variant |
| Levels.FromValue | logit/_enums.py:34-47 | succeeds exactly when some variant has the value; the variant found has that value; otherwise ValueError "'<value>' is not a valid value of any variant." |
| Levels.FromValueRoundTrip | logit/_enums.py:41-47 | `get_from_value(l.value) == l` for every variant |
| Levels.FromValueAsWritten | logit/_enums.py:41 | as written, the lookup raises TypeError on every input, so it differs from the corrected lookup wherever that one succeeds |
| Levels.FromValueAsWrittenRejectsDebug | logit/_enums.py:41 | "debug" fails as written but gives `Level.DEBUG` as intended |
| Levels.IndexOf | logit/_enums.py:52 | `tuple.index` gives the first position that holds the element |
| Levels.AllDeclared | logit/_enums.py:16-20 | every variant is in `tuple(Level)` |
| Levels.Rank | logit/_enums.py:49-52 | the rank is a position in `tuple(Level)` that holds the level |
| Levels.RankValues | logit/_enums.py:49-52 | CLUTTER=0, INFO=1, DEBUG=2, WARNING=3, ERROR=4 |
| Levels.RankInjective | logit/_enums.py:49-52 | two levels have the same rank exactly when they are the same level |
| Levels.RankIsStrictTotalOrder | logit/_enums.py:49-52 | comparing ranks is irreflexive, total on distinct levels and transitive |
| Logging.ConfigDict | logit/_logger.py:52 | the returned dict has exactly the keys "level" and "log_file_path"; its level reads back as the level and its path is the path |
| Logging.ParseConfig | logit/_logger.py:28-32 | a missing key gives ValueError "Required keys missing…"; with both keys present it succeeds exactly when some level has the given value; with both keys present and an unknown level, ValueError "'<value>' is not a valid value of any variant." (logit/_enums.py:44-45, through the corrected lookup); on success the level has that value and the path is the given path |
| Logging.ConfigRoundTrip | logit/_logger.py:31-52 | reading back the dict `config` returns gives the same level and path |
| Logging.ParseConfigIgnoresExtraKeys | logit/_logger.py:28-32 | adding any key other than the two required ones does not change the outcome |
| Logging.Logger.constructor | logit/_logger.py:11-13 | a fresh logger has level CLUTTER and path "app.log" |
| Logging.Logger.ConfigFromDict | logit/_logger.py:15-32 | succeeds exactly when the dict parses; on failure it raises the parse error and neither field changes; on success the fields are the parsed level and path |
| Logging.Logger.Config | logit/_logger.py:34-52 | sets both fields and returns exactly `{"level": level.value, "log_file_path": path}` |
| Logging.ConfigThenReload | logit/_logger.py:15-52 | feeding `config`'s result to `config_from_dict` succeeds and leaves the level and path that `config` set |
| Output.LevelField | logit/output.py:26-29 | `level()` is the current level name between square brackets, two characters longer |
| Output.JoinAppend | logit/output.py:36-42 | joining one more part appends the separator and that part |
| Output.JoinPrefixes | logit/output.py:36-37 | the prefix loop's output followed by the rest joined equals the whole list joined |
| Output.JoinSuffixes | logit/output.py:39-42 | the message followed by the suffix loop's output equals the message and suffixes joined |
| Output.LineIsJoin | logit/output.py:32-44 | the line is the prefixes, the message and the suffixes, in list order, joined by " \| " |
| Output.Prefixes | logit/output.py:36-37 | the prefix part is Σ(len(p)+3) long |
| Output.Suffixes | logit/output.py:41-42 | the suffix part is Σ(len(s)+3) long |
| Output.Line | logit/output.py:35-44 | the line is len(msg) + Σ(len(p)+3) + Σ(len(s)+3) long, and the message sits at offset Σ(len(p)+3) |
| Output.OutputBuilder | logit/output.py:32-44 | the two `+=` loops build exactly that line; with no prefixes and no suffixes the line is the message |
| Units.LeadingDigits | logit/_time.py:14-19 | the counted prefix is all digits and is followed by a non-digit or the end |
| Units.LeadingDigitsUnique | logit/_time.py:14-21 | any prefix length with those two properties is the counted one |
| Units.SplitDigits | logit/_time.py:9-21 | the quantity and unit the split returns: they concatenate to the text, the quantity is all digits, and the unit is empty or starts with a non-digit (the same code is at logit/_space.py:4-16) |
| Units.PrematureSplit | logit/_time.py:9-21 | the two parts concatenate to the input, the first is all digits and is the longest such prefix, and the second is empty or starts with a non-digit (the same loop is at logit/_space.py:4-16) |
| Units.CountAlphaAppend | logit/_time.py:27 | the letter count of a concatenation is the sum of the counts |
| Units.CountAlphaOfDigits | logit/_time.py:27 | a digit string has no letters |
| Units.CountAlphaOfLetters | logit/_time.py:27 | a letter string's letter count is its length |
| Units.ValidSyntaxHasShape | logit/_time.py:24-31 | whatever the letter-counting check accepts is digits followed by the demanded number of letters |
| Units.ShapeIsValidSyntax | logit/_time.py:24-31 | the check accepts every string made of digits followed by the demanded number of letters |
| Units.ValidSyntaxShape | logit/_time.py:24-31 | counting letters, alphanumeric and no digit after the split together accept exactly the strings made of digits followed by the demanded number of letters |
| Units.NatToStringRoundTrip | logit/_time.py:39 | `int(str(n)) == n`, and `str(n)` is a non-empty digit string |
| Units.ParseInt | logit/_time.py:39 | `int()` on the digit prefix raises ValueError "invalid literal for int() with base 10: ''" exactly when it is empty, and otherwise returns the number the digits denote in base 10 |
| Units.SplitOfLiteral | logit/_time.py:9-21 | `str(n) + unit`, with a unit made of letters, splits back into `str(n)` and the unit |
| Durations.CheckValidTimeSyntax | logit/_time.py:24-31 | with the letters counted, the check accepts exactly digits followed by one letter |
| Durations.SplitTimeData | logit/_time.py:34-39 | fails with the empty-`int()` ValueError exactly when there is no leading digit; otherwise the quantity is the base-10 value of the leading digits and the unit is everything after them |
| Durations.SplitTimeDataOfLiteral | logit/_time.py:34-39 | splitting `str(n) + unit` gives `(n, unit)` |
| Durations.ParseTimeData | logit/_time.py:58-59 | invalid syntax raises ValueError "'<text>' is not a valid string literal for the time data." before any split |
| Durations.ParseTimeDataOutcomes | logit/_time.py:58-62 | for text that passes the check: a bare unit fails in `int("")`; a unit outside the table raises KeyError; otherwise the result is the quantity times the unit's seconds |
| Durations.ParseTimeDataOfLiteral | logit/_time.py:58-62 | `parse_time_data(str(n)+u) == n * {86400, 604800, 2592000, 31536000}[u]` for every unit of the table |
| Durations.ParseTimeDataFiveDays | logit/_time.py:54 | "5d" gives 432000 |
| Durations.ParseTimeDataThreeYears | logit/_time.py:55 | "3y" gives 94608000 |
| Durations.ParseTimeDataDocExamples | logit/_time.py:53-55 | "5d" gives 432000; "3y" gives 94608000, not the docstring's 31536000 |
| Durations.ParseTimeDataUnknownUnit | logit/_time.py:62 | "5x" and "5D" fail at the lookup with KeyError; "d" passes the check and fails in `int("")` |
| Durations.ParseTimeDataTwoLetters | logit/_time.py:58-59 | "5dd" is rejected by the check with ValueError |
| Durations.CheckValidTimeSyntaxAsWritten | logit/_time.py:27 | as written, the check raises TypeError (`len` of a generator) on every input |
| Durations.SplitTimeDataAsWritten | logit/_time.py:38 | as written, the split raises TypeError (missing argument) on every input, so it differs from the intended split wherever that one succeeds |
| Durations.ParseTimeDataAsWritten | logit/_time.py:58-62 | as written, the parser raises TypeError on every input, so it differs from the intended parser wherever that one returns a number |
| Durations.AsWrittenRejectsDocExample | logit/_time.py:27-38 | "5d" fails as written both in the parser and in the split, while the intended versions give 432000 and (5, "d") |
| Sizes.CheckValidSpaceSyntax | logit/_space.py:19-28 | with the letters counted, the check accepts exactly digits followed by one letter |
| Sizes.SplitSpaceData | logit/_space.py:31-36 | fails with the empty-`int()` ValueError exactly when there is no leading digit; otherwise the quantity is the base-10 value of the leading digits and the unit is everything after them |
| Sizes.ConvertSpaceData | logit/_space.py:54-55 | no leading digit fails in `int("")`, a unit outside the table raises KeyError with that unit, and otherwise the result is the digits' value times the unit's kilobytes |
| Sizes.ParseSpaceData | logit/_space.py:51-52 | invalid syntax raises ValueError "'<text>' is not a valid string literal for the space data." |
| Sizes.ParseSpaceDataFailures | logit/_space.py:51-55 | of the strings the check accepts, a bare letter fails in `int("")` with ValueError and digits plus one letter fail at the lookup of that letter with KeyError |
| Sizes.ParseSpaceDataNeverSucceeds | logit/_space.py:51-55 | the parser never returns a number, because every unit of the table has two letters |
| Sizes.ParseSpaceDataDocExample | logit/_space.py:47-52 | the docstring's "5mb" is rejected by the check with ValueError |
| Sizes.CheckValidSpaceSyntaxAsWritten | logit/_space.py:22 | as written, the check raises TypeError (`len` of a generator) on every input |
| Sizes.ParseSpaceDataAsWritten | logit/_space.py:51-55 | as written, the parser raises TypeError on every input |
| Sizes.ParseSpaceDataAsWrittenRejectsDocExample | logit/_space.py:22 | "5mb" raises as written, and the intended parser gives 5000 |
| Sizes.CheckValidSpaceSyntaxIntended | logit/_space.py:19-28 | the check with two letters accepts exactly digits followed by two letters |
| Sizes.ParseSpaceDataIntended | logit/_space.py:39-55 | with the intended check, invalid syntax raises the same ValueError |
| Sizes.ParseSpaceDataIntendedOfLiteral | logit/_space.py:54-55 | with the intended check, `str(n)+u` gives n × {kb: 1, mb: 1000, gb: 10^6, tb: 10^9}[u] |
| Sizes.ParseSpaceDataIntendedDocExample | logit/_space.py:48 | with the intended check, "5mb" gives 5000 |
| Ansi.IntroducerLength | logit/_helper.py:6 | the introducer found at the front is at most two characters and never longer than the text |
| Ansi.IntroducerLengthCases | logit/_helper.py:6 | the introducer is two characters exactly when ESC is followed by a character in `@`–`_`, otherwise one exactly when the first character is a C1 character, and otherwise absent |
| Ansi.RunEnd | logit/_helper.py:6 | a greedy `[lo-hi]*` run starting at `i` ends between `i` and the end of the text |
| Ansi.RunEndStops | logit/_helper.py:6 | every character of the run is in range, and the run stops at the first character outside it |
| Ansi.MatchLength | logit/_helper.py:6 | the match at the start of the text never extends past its end |
| Ansi.EscapeAnsi | logit/_helper.py:4-7 | the result is never longer than the input |
| Ansi.MatchIsEscapeSequence | logit/_helper.py:6 | what the scanner removes in one step is a complete escape sequence |
| Ansi.IntroducerOfEscapeSequence | logit/_helper.py:6 | the introducer of an escape sequence is recognised whatever follows it |
| Ansi.EscapeSequenceMatches | logit/_helper.py:6 | a complete escape sequence at the start of the text is matched whole, whatever follows |
| Ansi.NoSequenceKept | logit/_helper.py:6-7 | a character at which no complete escape sequence starts, including a lone or unterminated introducer, is kept, and scanning resumes at the next character |
| Ansi.FirstIntermediate | logit/_helper.py:6 | a body of parameters then intermediates splits at the first intermediate |
| Ansi.RunEndExact | logit/_helper.py:6 | a run with those bounds ends exactly where the range is left |
| Ansi.RemovesEscapeSequence | logit/_helper.py:6-7 | a complete escape sequence at the front is deleted entirely and scanning resumes after it |
| Ansi.SubsequenceOfSuffix | logit/_helper.py:7 | a subsequence of a suffix is a subsequence of the whole |
| Ansi.EscapeAnsiIsSubsequence | logit/_helper.py:7 | the output is a subsequence of the input: characters are only deleted |
| Ansi.PlainCharKept | logit/_helper.py:6-7 | a character that is neither ESC nor C1 is kept, and scanning resumes after it |
| Ansi.LoneEscKept | logit/_helper.py:6-7 | an ESC not followed by a character in `@`–`_` is kept, and scanning resumes after it |
| Ansi.KeepsIntroducerFreePrefix | logit/_helper.py:6-7 | a leading stretch with no ESC and no C1 character is kept as is |
| Ansi.NoIntroducerUnchanged | logit/_helper.py:6-7 | a string with no ESC and no C1 character is returned unchanged |
| Ansi.SetRedIsEscapeSequence | logit/_helper.py:6 | "ESC[31m" is a complete escape sequence |
| Ansi.RemovesWhole | logit/_helper.py:6-7 | a complete escape sequence on its own becomes the empty string |
| Ansi.SetRedRemoved | logit/_helper.py:6-7 | "ESC[31m" in front of any text is deleted |
| Ansi.EscapeAnsiRemovesColour | logit/_helper.py:6-7 | "ESC[31m" and its C1 form "\x9B31m" are removed entirely |
| Ansi.EscapeAnsiColouredWord | logit/_helper.py:6-7 | "ESC[31mredESC[0m" becomes "red" |
| Ansi.UnterminatedKept | logit/_helper.py:6-7 | an introducer with no final character, "ESC[31", is kept |
| Ansi.FirstPassJoinsNeighbours | logit/_helper.py:6-7 | one pass over "ESC" + "ESC[31m" + "[31m" keeps the first ESC and deletes the sequence, which leaves "ESC[31m" |
| Ansi.NotIdempotent | logit/_helper.py:6-7 | so one pass can leave a sequence behind, and a second pass then removes it |
| Data.Touch | logit/_data.py:57-61 | an unseen path gets an entry holding `now`; a known path leaves the ledger as it is; no other entry changes |
| Data.Save | logit/_data.py:47 | KeyError for a path with no entry; otherwise that entry becomes `now` and every other entry is unchanged |
| Data.TouchIdempotent | logit/_data.py:54-61 | asking again for a path's last rotation changes nothing: the first time recorded wins |
| Data.SaveAfterTouch | logit/_data.py:42-61 | once a path has been asked for, saving it succeeds, and asking again returns the saved time |
| Data.Padded | logit/_data.py:67 | a zero-padded field is exactly `width` digits |
| Data.PaddedValue | logit/_data.py:67 | the padded digits denote the number when it is below 10^width |
| Data.PaddedInjective | logit/_data.py:67 | two numbers below 10^width with the same padded field are equal |
| Data.IsoDate | logit/_data.py:67 | `str(date)` is ten characters: the year padded to four digits, a dash, the month padded to two, a dash and the day padded to two; it holds no "/" |
| Data.IsoDateFields | logit/_data.py:67 | for a valid date, the three fields read back as the year, the month and the day |
| Data.IsoDateInjective | logit/_data.py:67 | different valid dates are written differently |
| Data.Basename | logit/_data.py:67 | `Path.name` has no "/" and is no longer than the path; a path with no "/", such as the default "app.log", is its own name |
| Data.BasenameOfJoin | logit/_data.py:68 | the base name of `folder / name` is `name` |
| Data.ArchiveFileName | logit/_data.py:67 | the archive file name is the date, then "-archive-", then the log file's base name; it is 19 characters longer than that base name and has no "/" |
| Data.ArchivePath | logit/_data.py:64-68 | the archive path is the folder, a "/" and then exactly the archive file name, so it lies directly in the given folder; its base name is the archive file name |
| Data.ArchivePathsCollide | logit/_data.py:64-68 | files with the same base name archived on the same date get the same archive path |
| Data.ArchivePathDate | logit/_data.py:67-68 | the date sits right after the folder and its "/" |
| Data.ArchivePathsOfDistinctDates | logit/_data.py:64-68 | archives made on different dates never share a path |
| Data.ArchivePathIsNotSource | logit/_data.py:64-68 | the archive path is never the log file's own path |
| Data.ReadJsonLogs | logit/_data.py:77-87 | a missing file raises FileNotFoundError; decodable content is returned and nothing changes; undecodable content is overwritten with "[]" and `[]` is returned |
| Data.JsonRecoveryIsStable | logit/_data.py:82-85 | after a recovery, reading again returns `[]` and changes nothing |
| Data.LogChildren | logit/_data.py:97 | `findall("log")` returns no more elements than there are children |
| Data.LogChildrenKeepsLogs | logit/_data.py:97 | `findall("log")` keeps exactly the children tagged "log" |
| Data.LogChildrenStep | logit/_data.py:97 | one more child adds itself to the result exactly when it is tagged "log" |
| Data.RecordOfStep | logit/_data.py:99-100 | one more child adds or replaces the binding of its tag to its text |
| Data.RecordOf | logit/_data.py:98-100 | an entry's keys are exactly its children's tags |
| Data.RecordOfLastWins | logit/_data.py:99-100 | each tag maps to the text of its last child with that tag |
| Data.Records | logit/_data.py:97-101 | one dict per `<log>` element |
| Data.RecordsInOrder | logit/_data.py:97-101 | the dicts are in document order, each built from its element's children |
| Data.XmlLogs | logit/_data.py:97-103 | one dict per `<log>` child of the root, in document order, each built from that child's children |
| Data.RecordsAppend | logit/_data.py:101 | one more `<log>` element appends its dict at the end |
| Data.CollectEntry | logit/_data.py:98-100 | the inner loop fills exactly the dict `RecordOf` describes |
| Data.CollectLogs | logit/_data.py:93-101 | the outer loop appends exactly the per-`<log>` dicts, in document order |
| Data.AppData.constructor | logit/_common.py:18-21 | at import the ledger file holds an empty "files" object and nothing is cached |
| Data.AppData.GetLogitConfig | logit/_data.py:15-32 | the first call returns what the file holds and caches it; later calls return the cached ledger with every change made to it, without reading the file |
| Data.AppData.SetLogitConfig | logit/_data.py:35-39 | the file holds exactly the given ledger |
| Data.AppData.SaveLastRotationTime | logit/_data.py:42-48 | the ledger and the file become `Save` of the loaded ledger; on KeyError nothing is written; a cache in step with the file stays in step |
| Data.AppData.GetLastRotationTime | logit/_data.py:51-61 | returns the entry of `Touch`, which is `now` for an unseen path; only an unseen path causes a write, which is the whole touched ledger; a cache in step with the file stays in step |
| Data.AppData.MoveLogFile | logit/_data.py:71-74 | FileNotFoundError with nothing changed when the log file is missing; otherwise its contents sit at the archive path, the original path holds an empty file, and every other file is unchanged |
| Data.AppData.GetJsonLogs | logit/_data.py:77-87 | the result and the new file system are those of `ReadJsonLogs` |
| Data.AppData.GetXmlLogs | logit/_data.py:90-103 | FileNotFoundError for a missing file and a parse error for an unparsable one; otherwise exactly the per-`<log>` dicts of the parsed root, in document order |

## Left out

- logit/_cli.py, logit/__init__.py, setup.py and logit/types_.py are not part of this model. They hold argument parsing, module wiring and type aliases.
- logit/_common.py is modelled only by its outcome: the ledger starts as an empty "files" object (`Data.AppData.constructor`) and the ambient level name `LEVEL` is a parameter of `Output.LevelField`, so its starting value is not modelled. The `APPDATA` lookup and the creation of folders are left out.
- `output.local_time` and `output.line_number` are left out because they read the clock and the call stack. Every producer is modelled by the string it returns.
- Output.OutputBuilder: the model takes the producers' results, so it does not capture that each producer is called exactly once, with all prefixes before all suffixes. The message is a string; the source's `object` annotation is not modelled. The source indexes `format["msg-prefix"]` and `format["msg-suffix"]` (logit/output.py:36, 41), so a format dict missing either key raises KeyError; the model takes the two lists in place of that dict, so this KeyError is not modelled.
- The JSON, XML and CSV libraries are left out. The JSON decoder and the XML parser are function parameters. The JSON text that `json.dump` writes is modelled only as the ledger value it holds, except the literal "[]". `get_csv_logs` is left out as a thin wrapper around `csv.reader`.
- Data.Touch: each ledger entry is the timestamp itself, not the one-field object `{"last_rotation": t}` that holds it. The `"files"` wrapper object is not modelled either, so a configuration file without `"files"` (a KeyError in the source) is not covered.
- The ledger keys are paths that are already absolute; `Path.absolute()` and pathlib normalisation are not modelled. "/" is the only separator. The logger's `Path | str` log file path (logit/_logger.py:13, 37, 52) is modelled as a string, so its default "app.log" stays relative and `str(path)` is the string itself.
- Data.AppData.MoveLogFile: a missing or unwritable archive folder is not modelled; only a missing log file fails.
- The debug `print` at logit/_data.py:58 is left out.
- Timestamps from `time.time()` are opaque `real`s passed in, and today's date is a parameter.
- Sizes.UnitMultipliers: the source's `1e3`, `1e6` and `1e9` are floats, so the Python product is a float. The model uses exact integers.
- Units.IsDigit: `isdigit`, `isalpha` and `isalnum` are modelled on ASCII only.
- Levels.FromValue: the `StrEnum` machinery (string comparison of members, `Level("info")`) is not modelled; a level is a datatype value with a string value.
- `Level` in logit/_enums.py declares no CRITICAL variant, and logit/_logger.py has no level filtering, no rotation trigger and no fan-out to structured sinks, so none of these is modelled. With the corrected syntax check and split, "5x" raises KeyError at the unit lookup (logit/_time.py:62); as written, every input raises TypeError at logit/_time.py:27.
- Logging.ParseConfig, Logging.Logger.ConfigFromDict and Logging.ConfigThenReload use the corrected lookup `Levels.FromValue`. As written, `config_from_dict` calls `Level.get_from_value` (logit/_logger.py:31), which raises TypeError at logit/_enums.py:41 (the first row under "## Findings"). So as written, every dictionary holding both keys gives TypeError, and the round trip `Logging.ConfigRoundTrip` holds only with the corrected lookup.

## Findings

The docstring of `parse_time_data` gives `24 * 365 * 60 * 60` for "3y". The corrected code returns three times that, 94608000 (`Durations.ParseTimeDataDocExamples`). This is an error in the docstring, not in the code.

| source | as written | input that shows it | evidently intended | confidence | as-written member | corrected member |
|---|---|---|---|---|---|---|
| logit/_enums.py:41 | `Level.get_inversed_dict()` is called on the class, with no instance for `self`, so it raises TypeError | "debug" | look the value up in the inverse dict | high; not executed | Levels.FromValueAsWritten | Levels.FromValue |
| logit/_time.py:27 | `len` is applied to a generator expression, so it raises TypeError | "5d" | count the letters of the text | high; not executed | Durations.CheckValidTimeSyntaxAsWritten | Durations.CheckValidTimeSyntax |
| logit/_time.py:38 | `_premature_split_time_data()` is called without `text`, so it raises TypeError (line 29 makes the same call) | "5d" | split `text` | high; not executed | Durations.SplitTimeDataAsWritten | Durations.SplitTimeData |
| logit/_time.py:58-62 | because of the two calls above, `parse_time_data` raises TypeError on every input | "5d" | 432000 | high; not executed | Durations.ParseTimeDataAsWritten | Durations.ParseTimeData |
| logit/_space.py:22 | `len` is applied to a generator expression, so `parse_space_data` raises TypeError on every input | "5mb" | count the letters of the text | high; not executed | Sizes.ParseSpaceDataAsWritten | Sizes.ParseSpaceData |
| logit/_space.py:28 | the check demands exactly one letter, but every unit of the table (line 1) has two, so no input converts | "5mb" | demand two letters, so "5mb" gives 5000 | high; not executed | Sizes.ParseSpaceDataNeverSucceeds | Sizes.ParseSpaceDataIntended |
