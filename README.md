# libutil core in Dafny

A model of the utility core of the AquaticEcoDynamics `libutil` library, in
three parts.

- **Namelist reader and binder** (`src/namelist.c`):
  - It reads Fortran-style `&NAME … /` groups line by line. `readline` strips
    line ends and cuts comments outside quotes. It trims blanks and passes
    over empty lines.
  - `trim_buf_name`, `get_entry` and `get_section` carve the lines into
    entries and sections.
  - `decode_buf` classifies each token as Bool, Int, Double or Str.
    `extract_values` appends the tokens to an entry, widening an Int entry
    to Double when a real turns up.
  - `find_namelist_entry`, `get_nml_listlen` and `get_namelist` look entries
    up ignoring case. They mark what they visit and copy values into the
    caller's records.
  - `close_namelist` reports entries of looked-up sections that were never
    bound.
- **Calendar and time formats** (`src/aed_time.c`):
  - `calendar_date` and `julian_day` convert between the true Julian day and
    the Gregorian date.
  - `time_diff`, `day_of_year` and the hours/minutes/seconds split are plain
    arithmetic.
  - `read_time_string` and `write_time_string` handle the fixed layout
    `YYYY-MM-DD hh:mm:ss`.
  - `decode_time_format` compiles a letter pattern into a scanf/printf
    format plus the position of each field.
  - `read_time_formatted` and `write_time_formatted` use the compiled
    format.
- **CSV bookkeeping** (`src/aed_csv.c`):
  - `read_line` and `break_line` read a line and split it at commas.
  - The input table behind `open_csv_input` and `close_csv_input` answers
    `check_it`, `find_csv_var`, `get_csv_colname` and `get_csv_val_*`.
  - The output table behind `open_csv_output` and `close_csv_output` owns
    one row buffer per file. `csv_header_*` and `write_csv_var` drive that
    buffer as a state machine that emits one row per time stamp.

Modules:

| Module | File | Contents |
|---|---|---|
| `Text` | `text.dfy` | Character classes, trimming, case-insensitive comparison and the first-match search shared by both parsers. |
| `CFormat` | `cformat.dfy` | `%d`/`%0<w>d` printing and `%<w>d` scanning, with the round trip between them. |
| `AedTime` | `aed_time.dfy` | Calendar conversions, `time_diff`, `day_of_year`, and reading and writing the fixed time string. |
| `TimeFormat` | `aed_timefmt.dfy` | `decode_time_format` as a tokenizer plus a compiler. `read_time_formatted` and the argument routing of `write_time_formatted`. |
| `CsvSplit` | `csv_split.dfy` | `break_line`. |
| `CsvInput` | `csv_input.dfy` | `read_line` and the input-slot table, as class `CsvInputs`. |
| `CsvOutput` | `csv_output.dfy` | Output path, row buffer (class `OutFile`) and output-slot table (class `CsvOutputs`). |
| `NmlValue` | `nml_value.dfy` | Values, `decode_buf`, `grab_substring`, and the union member each copy reads. |
| `NmlExtract` | `nml_extract.dfy` | `extract_values` and the invariant that an entry's type is fixed once and only ever widened. |
| `NmlRead` | `nml_read.dfy` | `readline` (class `Reader`) and `trim_buf_name`. |
| `NmlParse` | `nml_parse.dfy` | `get_entry`, `get_section` and the section loop of `open_namelist`. |
| `NmlStore` | `nml_store.dfy` | The registry of open files (class `Registry`) and lookup, binding and closing. |

How the C is modelled:

- C's truncating `/` is written out as `CDiv`. Calendar facts are proved for
  days from 1 March of year 0 on (`julian >= 1721120`), where every division
  has non-negative operands.
- Every `exit(1)` becomes a `Fail` outcome: an unterminated string, an
  unmatched quote, a syntax error or a read past the terminator.
  `close_namelist`'s exit becomes the returned list of unbound entries; the
  C exits exactly when that list is non-empty.
- `sscanf("%lf")` is a function parameter (`RealScanner`); nothing here
  parses floating point.
- A file's content is a parameter: the raw pieces `fgets` returns, or `None`
  when `fopen` fails.
- Emitted CSV text is a sequence of pieces appended to `out`.

## Model

| member | source | states |
|---|---|---|
| Text.StripLineEnd | src/namelist.c:109-111 | The result is a prefix of the line, does not end in CR or LF, and everything dropped is CR or LF. |
| Text.LineEndStartStrips | src/aed_csv.c:103-105 | The stripped length stops just after the last character that is not a line end. Every character after it is CR or LF. |
| Text.SkipBlankChars | src/namelist.c:131-133 | The leading-blank skip stops at the position the specification `SkipFrom` gives. |
| Text.SkipFromStops | src/namelist.c:132 | The skip stops at the first non-blank character or at the end, and passes only spaces and tabs. |
| Text.DropBlankChars | src/namelist.c:135-136 | The trailing-blank loop keeps the length `KeepTo` gives. |
| Text.KeepToStops | src/namelist.c:136 | The kept part is empty or ends in a non-blank, and everything dropped is a space or a tab. |
| Text.TrimBlankChars | src/namelist.c:131-136 | Trimming both ends gives `Trim(s)`. |
| Text.TrimEnds | src/namelist.c:131-136 | A trimmed string is empty or starts and ends with a non-blank character. |
| Text.IndexFrom | src/namelist.c:151 | `strchr`: the first occurrence of c from j on, or the end when there is none. |
| Text.CommaFrom | src/aed_csv.c:131-136 | The first comma from j on, or the end of the line. |
| Text.FirstMatchIsFirst | src/aed_csv.c:281-285 | The first-match search returns -1 exactly when no name matches ignoring case. Otherwise it returns an index that matches, and no earlier index matches. |
| Text.FirstMatch | src/aed_csv.c:281-285 | The search returns -1 or an index of the header list. |
| Text.Lower | src/aed_csv.c:282 | `tolower` of the C locale: upper-case ASCII letters map to lower case and every other character is unchanged. |
| CFormat.ScanFormattedInt | src/aed_time.c:106 | A number printed with `%0<w>d` and scanned back with `%<w>d` gives the number and leaves the rest of the input untouched. |
| CFormat.DecValueDigitsOf | src/aed_time.c:128 | The decimal digits printed for n denote n. |
| CFormat.DigitChar | src/aed_time.c:128 | The printed character is a digit, and it denotes the digit printed. |
| CFormat.FormatIntDigits | src/aed_time.c:128 | `%0<w>d` of a non-negative number prints at least one character, all digits. |
| CFormat.DigitsOfLength | src/aed_time.c:128 | A number below 10^w prints in at most w digits. |
| CFormat.DecValueLeadingZeros | src/aed_time.c:128 | Zero padding does not change the value the digits denote. |
| CFormat.TakeDigits | src/aed_time.c:106 | The scanned digits are a prefix of the input, at most the field width long, and all digits. The scan stops at a non-digit when neither the width nor the input is exhausted. |
| CFormat.SkipSpace | src/aed_time.c:106 | `%d` skips leading white space: the result is a suffix of the input that does not start with white space. |
| CFormat.ScanFormat | src/aed_time.c:106 | sscanf stores at most one value per conversion of the format. |
| CFormat.ScanFormatNum | src/aed_time.c:106 | A matched `%<w>d` conversion contributes the printed number and scanning continues after it. |
| CFormat.ScanFormatChar | src/aed_time.c:106 | An ordinary character of the format consumes the same character of the input. |
| CFormat.ScanFormatSpace | src/aed_time.c:106 | White space in the format consumes the white space of the input. |
| CFormat.ScanFormatNumThen | src/aed_time.c:106 | A printed number followed by its separator scans back as that number, and scanning goes on after the separator. |
| CFormat.ZeroPad | src/aed_time.c:128 | `%0<w>d` pads to exactly w characters, or keeps the digits when they are longer. |
| AedTime.CDiv | src/aed_time.c:49-60 | C's `/` truncates toward zero: Euclidean division for a non-negative dividend, the negated quotient of the magnitude otherwise. |
| AedTime.JulianDayShifted | src/aed_time.c:79-92 | julian_day is the sum of a century term, a year-in-century term and a month term, with January and February counted in the previous year. |
| AedTime.CenturyDown | src/aed_time.c:48-52 | The first stage of calendar_date gives a non-negative century count and a day of the century in range. |
| AedTime.YearDown | src/aed_time.c:53-56 | The second stage gives a year within the century in 0..99 and a day of the March-based year in 1..366. |
| AedTime.MonthDown | src/aed_time.c:57-60 | The third stage gives a month in 0..11, counted from March, and a day in 1..31. |
| AedTime.JulianOfCalendar | src/aed_time.c:43-93 | `julian_day(calendar_date(j)) == j` for every j >= 1721120. |
| AedTime.CalendarOfJulian | src/aed_time.c:43-93 | `calendar_date(julian_day(y, m, d)) == (y, m, d)` for every valid Gregorian date with y >= 1. |
| AedTime.CenturyUp | src/aed_time.c:48-52 | The century stage undoes the century term of julian_day. |
| AedTime.YearUp | src/aed_time.c:53-56 | The year stage undoes the year term of julian_day. |
| AedTime.MonthUp | src/aed_time.c:57-60 | The month stage undoes the month term of julian_day. |
| AedTime.LeapBoundaries | src/aed_time.c:79-92 | For a valid date, the day offset within the March-based year is in range. Day 366 of that year occurs only in a leap year. |
| AedTime.CalendarDateRange | src/aed_time.c:56-68 | calendar_date yields a month in 1..12 and a day in 1..31 for every j >= 1721120. |
| AedTime.CalendarStages | src/aed_time.c:43-72 | calendar_date of a day is the date at a given day offset of a March-based year that starts at a known day. |
| AedTime.CalendarDate | src/aed_time.c:43-72 | The definition of calendar_date. Its properties are stated by CalendarStages, CalendarDateRange, JulianOfCalendar and CalendarOfJulian. |
| AedTime.JulianDay | src/aed_time.c:79-93 | The definition of julian_day. Its properties are stated by JulianDayShifted, JulianOfCalendar and CalendarOfJulian. |
| AedTime.DayOfYear | src/aed_time.c:146-151 | The definition of day_of_year. Its properties are stated by DayOfYearRange and DayOfYearNewYear. |
| AedTime.TimeDiff | src/aed_time.c:138-141 | The definition of time_diff. Its properties are stated by TimeDiffMeaning. |
| AedTime.WriteTimeString | src/aed_time.c:118-129 | The definition of write_time_string. Its properties are stated by ReadWriteTimeString. |
| AedTime.YearStartStep | src/aed_time.c:92 | Consecutive March-based years are 365 or 366 days apart. |
| AedTime.DayOfYearRange | src/aed_time.c:146-151 | day_of_year lies in 0..365 for every j >= 1721120. |
| AedTime.DayOfYearZero | src/aed_time.c:146-151 | For March to December of year 0, day_of_year is 59..364: julian_day(0, 1, 1) comes out one day late. |
| AedTime.DayOfYearNewYear | src/aed_time.c:146-151 | day_of_year of 1 January is 0, for every year y >= 1. |
| AedTime.DayOfYearEarly | src/aed_time.c:146-151 | day_of_year lies in 0..365 for days from March to December. |
| AedTime.DayOfYearLate | src/aed_time.c:146-151 | day_of_year lies in 0..365 for days in January and February. |
| AedTime.TimeDiffMeaning | src/aed_time.c:138-141 | time_diff is the difference of the two instants in seconds. It is antisymmetric and 0 on equal arguments. |
| AedTime.SplitSeconds | src/aed_time.c:122-124 | `3600*hh + 60*min + ss == secs` always holds. For secs >= 0, minutes and seconds lie in 0..59 and hh is the whole hours; for negative secs they lie in -59..0. |
| AedTime.ReadTimeString | src/aed_time.c:101-110 | jul is set only when at least 3 fields scan, and secs only when at least 5 do, with ss added when 6 do. Otherwise both stay 0. |
| AedTime.ScanTimeFields | src/aed_time.c:106 | `%4d-%2d-%2d %2d:%2d:%2d` reads back the six fields `%04d-%02d-%02d %02d:%02d:%02d` wrote, when each fits its width. |
| AedTime.ReadWriteTimeString | src/aed_time.c:101-129 | Reading back a written time string gives the same day and seconds, for years up to 9999 and hours below 100. |
| TimeFormat.RunLength | src/aed_time.c:178-181 | The run is as long as the leading copies of the letter. It is maximal: the next character differs. |
| TimeFormat.Tokenize | src/aed_time.c:170-197 | The scan of the pattern into runs and literals. Its properties are stated by SourceOfTokenize, TokenizeWellFormed and TokenizeSource. |
| TimeFormat.Compile | src/aed_time.c:184-189 | Yields six positions and six widths. Their meaning is stated by CompileDescribes. |
| TimeFormat.SourceOfTokenize | src/aed_time.c:170-197 | Tokenizing a pattern loses nothing: the tokens spell the pattern back. |
| TimeFormat.TokenizeWellFormed | src/aed_time.c:170-197 | Every field token is a run of one field letter, every literal is a non-field character, and no two neighbouring runs share a letter. |
| TimeFormat.TokenizeSource | src/aed_time.c:170-197 | Every well-formed token list is the tokenization of its own spelling. |
| TimeFormat.CompileDescribes | src/aed_time.c:184-189 | Each field letter's position is the ordinal of its last run among the field runs and its width is that run's length. A letter with no run keeps -1. |
| TimeFormat.CompileDistinct | src/aed_time.c:184-189 | When no letter has two runs, each run's field is recorded at the run's own ordinal with the run's length. |
| TimeFormat.CompileField | src/aed_time.c:184-189 | A letter with exactly one run is recorded at that run's ordinal with that run's width. |
| TimeFormat.CompileAbsent | src/aed_time.c:165-166 | A letter that never appears keeps position -1. |
| TimeFormat.RenderAllAppend | src/aed_time.c:182 | The generated format of two token lists is the concatenation of their formats: conversions come out in pattern order. |
| TimeFormat.DecodeTimeFormat | src/aed_time.c:158-204 | The loop over the pattern, writing into an 80-character buffer, produces the decoded format and positions. |
| TimeFormat.DecodeNext | src/aed_time.c:171-196 | One pass of the loop consumes one token: a run or a literal. The buffer then holds the format of the tokens consumed so far, NUL-terminated. |
| TimeFormat.ScanRun | src/aed_time.c:178-181 | The inner loop measures the maximal run starting at i. The pattern from i tokenizes as that run followed by the rest. |
| TimeFormat.Record | src/aed_time.c:184-189 | Recording a run sets its letter's position to the next ordinal and its width to the run length. |
| TimeFormat.PutConversion | src/aed_time.c:182 | `%d` for a one-character run and `%<l>d` for a longer one are appended to the buffer. |
| TimeFormat.DecodedInRange | src/aed_time.c:184-189 | A pattern with at most six field runs gives positions in -1..5. |
| TimeFormat.DecodedPermutation | src/aed_time.c:184-189 | A pattern with one run of each of the six letters routes every field to its own conversion. |
| TimeFormat.DecodedStandard | src/aed_time.c:158-204 | `YYYY-MM-DD hh:mm:ss` decodes to positions 0..5, widths 4,2,2,2,2,2 and format `%4d-%2d-%2d %2d:%2d:%2d`. |
| TimeFormat.DecodedClockFirst | src/aed_time.c:158-204 | `hh:mm YYYY-MM-DD` decodes to Y,M,D at positions 2,3,4, h,m at 0,1 and s absent. |
| TimeFormat.ReadTimeFormatted | src/aed_time.c:212-224 | The read is defined exactly when every slot the guards `n > 2`, `n > 4` and `n > 5` let through was stored by sscanf. |
| TimeFormat.ReadTimeFormattedUninitialised | src/aed_time.c:220-223 | With the pattern `hh:mm YYYY-MM-DD` and three fields scanned, the read uses slots sscanf never stored. |
| TimeFormat.ReadClockFirst | src/aed_time.c:220-223 | With the clock-first positions and three values scanned, the read is undefined. |
| TimeFormat.ReadTimeFormattedCheckedAgrees | src/aed_time.c:220-223 | The corrected read agrees with the written one whenever the written one reads only stored slots. It does so always for the standard order. |
| TimeFormat.Route | src/aed_time.c:243-244 | write_time_formatted stores six values into six argument slots by the decoded positions. |
| TimeFormat.WriteTimeFormattedArgs | src/aed_time.c:232-247 | The six argument slots write_time_formatted passes to sprintf. Their round trip is stated by ReadWriteTimeFormatted. |
| TimeFormat.ReadTimeFormattedChecked | src/aed_time.c:212-224 | The corrected read_time_formatted. Its properties are stated by ReadTimeFormattedCheckedAgrees and ReadWriteTimeFormattedChecked. |
| TimeFormat.RouteSlot | src/aed_time.c:243-244 | Each argument slot holds the value of the last field routed to it. Later stores overwrite earlier ones. |
| TimeFormat.RouteAt | src/aed_time.c:243-244 | With a permutation of positions, every slot is written and field k lands in slot `pos[k]`. |
| TimeFormat.RouteField | src/aed_time.c:243-244 | When the positions are a permutation, field k is stored in slot `pos[k]`. |
| TimeFormat.FirstRouted | src/aed_time.c:243-244 | With distinct positions, the value routed to slot `pos[k]` is field k's. |
| TimeFormat.ReadRouted | src/aed_time.c:212-247 | When the positions are a permutation, every argument slot is written, and reading them back gives the date and seconds of the six fields. |
| TimeFormat.ReadAll | src/aed_time.c:212-224 | When every field's slot holds that field's value, the read gives the instant of those fields. |
| TimeFormat.ReadWriteTimeFormatted | src/aed_time.c:212-247 | For a pattern with each letter once, reading back the written arguments gives the same day and seconds. |
| TimeFormat.ReadWriteTimeFormattedChecked | src/aed_time.c:212-247 | The same round trip for the corrected read. |
| CsvSplit.BreakLine | src/aed_csv.c:118-152 | The fields and their count are those of the specification `SplitFrom`. A NULL or empty line gives 0 fields. |
| CsvSplit.SplitFrom | src/aed_csv.c:126-148 | The outer loop of break_line. Its properties are stated by SplitStep, BreakLinePlain and QuotedRest. |
| CsvSplit.SplitStep | src/aed_csv.c:126-148 | One pass of the outer loop yields the trimmed field up to the end of its scan and continues after the comma, or fails when the scan ran past the terminator. |
| CsvSplit.ScanField | src/aed_csv.c:131-136 | The inner loop ends where `ScanEnd` says. A backslash steps over two characters, and inside a quoted field commas do not split. |
| CsvSplit.ScanEnd | src/aed_csv.c:131-136 | The scan stops at a comma only outside quotes, or at the end. It may step one past the end after a trailing backslash. |
| CsvSplit.SkipLeading | src/aed_csv.c:137 | The leading-blank loop stops where `SkipBlanks` says. |
| CsvSplit.TrimTrailing | src/aed_csv.c:140 | The trailing-blank loop keeps the length `TrimmedLength` gives. |
| CsvSplit.ExtractField | src/aed_csv.c:137-142 | The copied field is `FieldText`, with blanks dropped at both ends. A quoted field keeps its closing quote: see QuoteCutIsDead. |
| CsvSplit.QuoteCutIsDead | src/aed_csv.c:131-139 | A quoted scan stops only at the end of the line. The closing-quote `len--` of line 139 never applies, so a quoted field is cut exactly as an unquoted one and keeps its closing quote. |
| CsvSplit.FieldTrimmed | src/aed_csv.c:137-140 | A field is empty or starts and ends with a non-blank character. |
| CsvSplit.FieldTextIsTrim | src/aed_csv.c:137-142 | Away from a closing quote, the field is the trimmed text between its start and its end. |
| CsvSplit.BreakLinePlain | src/aed_csv.c:126-148 | For a line with no quotes and no backslashes, the fields are the comma-separated pieces, trimmed. An empty middle field gives "" and a trailing comma adds no field. |
| CsvSplit.SplitPlain | src/aed_csv.c:126-148 | From any position of a quote-free, backslash-free line, the remaining fields are the trimmed comma pieces. |
| CsvSplit.QuotedRest | src/aed_csv.c:128-136 | Once a field opens with a quote, commas never split again: the rest of the line is one field. |
| CsvSplit.TrailingBackslash | src/aed_csv.c:132 | A line ending in a backslash makes the scan step past its terminator. |
| CsvInput.ReadLine | src/aed_csv.c:83-113 | The returned line is the input piece without its trailing CR and LF characters. NULL comes only at end of file with nothing else on the line, and an empty line is returned only when not at end of file. |
| CsvInput.CsvInputs.constructor | src/aed_csv.c:63-64 | The table starts unused, with the counter -1. |
| CsvInput.CsvInputs.OpenCsvInput | src/aed_csv.c:169-206 | The first call initialises the table. The result is -1 when the table is full or the file does not open. Otherwise it is the next slot, which receives the header fields of the first line and the decoded time format. |
| CsvInput.CsvInputs.GetCsvColname | src/aed_csv.c:390-396 | NULL whenever csv >= `_n_inf`. While the counter is still -1 that covers every csv, including the -1 of a failed open. Otherwise a name is returned exactly when `check_it` holds, and it is one of the slot's headers. |
| CsvInput.CsvInputs.GetCsvValR | src/aed_csv.c:366-370 | 0.0 whenever `check_it` fails. |
| CsvInput.CsvInputs.GetCsvValI | src/aed_csv.c:342-358 | 0 whenever `check_it` fails. `get_csv_type` and `get_csv_val_s` (src/aed_csv.c:378-382) have this same body. |
| CsvInput.CsvInputs.GetCsvValIIsTruncated | src/aed_csv.c:354-358 | The integer value is the real value truncated toward zero. |
| CsvInput.Trunc | src/aed_csv.c:356 | Conversion of a double to int truncates toward zero. |
| CsvInput.CsvInputs.FindCsvVar | src/aed_csv.c:275-286 | -1 whenever csv >= `_n_inf`, including every csv while the counter is -1. Otherwise the result is the first header equal to the name ignoring case, or -1 exactly when no header matches. |
| CsvInput.CsvInputs.CloseCsvInput | src/aed_csv.c:214-243 | Corrected (see Findings): only the slots in use are accepted. A rejected number leaves the table unchanged. An accepted one clears the slot, so `check_it` then fails and values read 0. The counter drops only when the last slot is closed. |
| CsvInput.CloseAcceptsPastTable | src/aed_csv.c:218 | The written guard accepts `csvf == _n_inf`, which names no open slot and, with a full table, lies past it. |
| CsvInput.CloseGuardsAgree | src/aed_csv.c:218 | Apart from `csvf == _n_inf`, the written guard and the corrected one agree. |
| CsvOutput.PathFits | src/aed_csv.c:410-418 | The allocated length is exactly the path's length plus the terminator, so snprintf writes the whole path. |
| CsvOutput.OutputPathParts | src/aed_csv.c:410-418 | The path is `out_dir + "/" + fname + ".csv"`, or `fname + ".csv"` when out_dir is NULL or ".". |
| CsvOutput.OutputPath | src/aed_csv.c:410-418 | The path ends in fname followed by ".csv", and is exactly that when out_dir is NULL or ".". |
| CsvOutput.Snprintf | src/aed_csv.c:413 | snprintf writes a prefix shorter than the buffer, and all of the text when it fits. |
| CsvOutput.TimeOf | src/aed_csv.c:523 | The stored time is the first 19 characters of the value, or all of it when shorter. |
| CsvOutput.Reset | src/aed_csv.c:543-544 | The first n buffer slots become `missing` and the others are kept. |
| CsvOutput.Flush | src/aed_csv.c:534-545 | Keeps the buffer sizes. What it emits and resets is stated by WriteFlushes. |
| CsvOutput.AfterWriteVar | src/aed_csv.c:516-546 | Keeps the buffer sizes. Its behaviour is stated by WriteTime, WriteColumn, WriteUnknown, WriteFlushes and WriteHeld. |
| CsvOutput.Missings | src/aed_csv.c:543-544 | n buffer values, all `missing`. |
| CsvOutput.WriteTime | src/aed_csv.c:522-523 | Writing "time" stores the truncated time and changes nothing else. |
| CsvOutput.WriteColumn | src/aed_csv.c:524-531 | Writing another name stores the value in the first column whose header matches ignoring case, and changes nothing else. |
| CsvOutput.WriteUnknown | src/aed_csv.c:524-531 | An empty name or a name with no column stores nothing. |
| CsvOutput.WriteFlushes | src/aed_csv.c:534-545 | With `last` set and a valid time, exactly one row is emitted: the time, then one value per data column, then a line end. The time becomes "INVALID" and every column buffer becomes `missing`. |
| CsvOutput.WriteHeld | src/aed_csv.c:534 | With the time still "INVALID", nothing is emitted and the buffers are kept. |
| CsvOutput.OneRowPerTime | src/aed_csv.c:534-545 | After a flush, a second `last` write without a new time emits nothing. |
| CsvOutput.RowPerVariable | src/aed_csv.c:537-538 | A header of "time" plus n variables gives rows of the time, n values and a line end. |
| CsvOutput.RowPieces | src/aed_csv.c:535-540 | The emitted row is the time followed by the buffer values of columns 1 to n_cols - 1. |
| CsvOutput.OutFile.constructor | src/aed_csv.c:44-50 | A closed output slot has no header, no time and no output. |
| CsvOutput.OutFile.HeaderStart | src/aed_csv.c:474-480 | The header becomes the single name "time" and the time becomes "INVALID". "time" is written. |
| CsvOutput.OutFile.HeaderVar | src/aed_csv.c:482-487 | One header name is appended and its buffer slot is set to `missing`. ",v" is written. |
| CsvOutput.OutFile.HeaderVar2 | src/aed_csv.c:489-494 | The same, writing ",v [units]". |
| CsvOutput.OutFile.HeaderEnd | src/aed_csv.c:496-499 | A line end is written and nothing else changes. |
| CsvOutput.OutFile.WriteStart | src/aed_csv.c:507 | The value is written as is. |
| CsvOutput.OutFile.WriteVal | src/aed_csv.c:508 | A value is written with `,%15.6f`. |
| CsvOutput.OutFile.WriteVar | src/aed_csv.c:516-546 | The new buffer, time and output are those of `AfterWriteVar`, whose behaviour is stated by WriteTime, WriteColumn, WriteUnknown, WriteFlushes and WriteHeld. A closed slot changes nothing. |
| CsvOutput.OutFile.FlushRow | src/aed_csv.c:534-545 | The new state is `Flush` of the old: a row is emitted, the time becomes INVALID and the columns become `missing`. |
| CsvOutput.OutFile.EmitRow | src/aed_csv.c:535-540 | Exactly the row of the time and the column values is appended to the output. Nothing else changes. |
| CsvOutput.OutFile.ResetColumns | src/aed_csv.c:543-544 | The reset loop sets the first n_cols buffer slots to `missing`. |
| CsvOutput.SuccessiveSlots | src/aed_csv.c:420-433 | As written, successive successful opens use slots `_n_outf`, `_n_outf + 1` and so on, with no bound. |
| CsvOutput.OpenOverrunsTable | src/aed_csv.c:420 | As written, the open after MAX_OUT_FILES successful ones writes the slot at index MAX_OUT_FILES, past the table. |
| CsvOutput.SlotsWrittenInTable | src/aed_csv.c:420-433 | With the bound check, every slot written lies inside the table. |
| CsvOutput.CsvOutputs.constructor | src/aed_csv.c:44-50 | The output table starts with all MAX_OUT_FILES slots closed and the counter 0. |
| CsvOutput.CsvOutputs.OpenCsvOutput | src/aed_csv.c:404-437 | Corrected (see Findings): a full table gives -1. Otherwise the path is built as above and the next slot takes the file, with its header, time, buffer and output unchanged. The counter advances exactly when the file opened. |
| CsvOutput.CsvOutputs.CloseCsvOutput | src/aed_csv.c:445-453 | -1 for a number outside 0..MAX_OUT_FILES-1. Otherwise the result is fclose's and the slot is closed, with its header, time, buffer and output unchanged. The counter is unchanged. |
| NmlValue.DecodeBuf | src/namelist.c:172-194 | Bool exactly when the token starts with ".true." or ".false." in any case, with value true for ".true.". Int only when the token has none of '.', 'E', 'e' and `%d` reads that number. Double only when `%lf` reads it. Str keeps the token and only when `%lf` fails. |
| NmlValue.SpaceTokenIsStr | src/namelist.c:172-194 | When `%lf` converts nothing on white space, as sscanf does, a token of white space only, the empty one included, is kept as a Str. There is no "no data" value. |
| NmlValue.Code | include/namelist.h:33-42 | The type codes are 0..4, with 0 exactly for an entry without type. |
| NmlValue.DecodeIntText | src/namelist.c:185-188 | A printed integer decodes as that Int. |
| NmlValue.IntTextScans | src/namelist.c:186 | `%d` reads back any printed integer, which contains none of '.', 'E', 'e'. |
| NmlValue.DecodeLogical | src/namelist.c:174-181 | A token starting with ".true." or ".false." in any case is that Bool, whatever follows. |
| NmlValue.Grab | src/namelist.c:201-212 | The copy is never longer than the text it copies from. |
| NmlValue.GrabIsUnescape | src/namelist.c:201-212 | On text whose backslashes pair up, grab_substring removes each escaping backslash and keeps the character after it. |
| NmlValue.GrabSubstring | src/namelist.c:201-212 | The loop produces `Grab`. |
| NmlValue.Widen | src/namelist.c:449 | Reading an Int cell as a double gives the same number as a real. |
| NmlValue.IntView | src/namelist.c:433 | Reading a cell as `.i` gives the Int of an Int cell and nothing meaningful otherwise. |
| NmlValue.RealView | src/namelist.c:448 | Reading a cell as `.r` gives the real of a Double cell and nothing meaningful otherwise. |
| NmlValue.StrView | src/namelist.c:465 | Reading a cell as `.s` gives the string of a Str cell and nothing meaningful otherwise. |
| NmlValue.BoolView | src/namelist.c:479 | Reading a cell as `.b` gives the Bool of a Bool cell, the overlapping int of an Int cell, and nothing meaningful otherwise. |
| NmlExtract.NewEntry | src/namelist.c:310-314 | A new entry has the given name, no type, no values and is unseen. |
| NmlExtract.QuoteEnd | src/namelist.c:231-235 | A closed quoted value ends on the same quote character. A backslash steps over the next character. |
| NmlExtract.Append | src/namelist.c:269-286 | Appending keeps the name and seen flag and adds exactly one value. The first value fixes the entry type, which otherwise stays. |
| NmlExtract.Widened | src/namelist.c:260-263 | Promotion rewrites every earlier value as the same number in real form. |
| NmlExtract.AddToken | src/namelist.c:250-286 | One token adds exactly one value. The type is set by the first value and afterwards changes only from Int to Double. On that change every earlier value is widened; otherwise earlier values are untouched. |
| NmlExtract.Step | src/namelist.c:228-294 | One pass of the loop appends one value and moves forward, with the type only widened. It fails only on a quoted value that is unmatched or steps past the terminator. |
| NmlExtract.ExtractFrom | src/namelist.c:219-299 | The loop adds at least one value, keeps the name and seen flag, and only widens the type. |
| NmlExtract.ExtractValues | src/namelist.c:219-299 | The loop computes `ExtractFrom`: the same values, type, error and trailing-comma flag. |
| NmlExtract.ExtractQuoted | src/namelist.c:229-243 | A quoted token is scanned to its closing quote, copied with grab_substring and stored as Str. |
| NmlExtract.ExtractPlain | src/namelist.c:244-268 | An unquoted token runs to the next comma and is decoded. |
| NmlExtract.ExtractOne | src/namelist.c:228-294 | One pass of the loop computes `Step`. |
| NmlExtract.Promote | src/namelist.c:260-263 | The promotion loop computes `Widened`. |
| NmlExtract.AddDecoded | src/namelist.c:252-286 | Decoding and appending one token computes `AddToken`. |
| NmlExtract.SkipSeparator | src/namelist.c:288-294 | Blanks, one comma and blanks after it are skipped, and the comma is recorded. |
| NmlExtract.ScanQuoted | src/namelist.c:231-235 | The quote scan computes `QuoteEnd`. |
| NmlExtract.ScanToComma | src/namelist.c:243 | The comma scan stops at the first comma or the end. |
| NmlExtract.AddTokenCoherent | src/namelist.c:250-286 | Adding a token keeps an entry coherent. An entry has a type exactly when it has values, the first value has the entry's type, an Int entry holds no real and a Double entry holds no Int. |
| NmlExtract.AppendCoherent | src/namelist.c:269-286 | Appending a value allowed by the entry's type keeps the entry coherent. |
| NmlExtract.ExtractCoherent | src/namelist.c:219-299 | A whole extract_values call keeps an entry coherent. |
| NmlExtract.QuotedIsUnescaped | src/namelist.c:229-243 | A closed quoted token is stored as the Str of its text with escapes removed. |
| NmlExtract.QuoteEndEven | src/namelist.c:231-235 | The text between a pair of matched quotes has its backslashes paired. |
| NmlExtract.IntIntoDouble | src/namelist.c:253-255 | A later Int token in a Double entry is stored as the same number in real form. |
| NmlExtract.RealIntoInt | src/namelist.c:256-265 | A Double token in an Int entry turns the entry into Double and widens every earlier Int. |
| NmlExtract.MixedList | src/namelist.c:219-299 | "1, 2.5, 3" gives a Double entry holding 1.0, 2.5 and 3.0. |
| NmlExtract.MixedFirst | src/namelist.c:244-294 | The first token of "1, 2.5, 3" makes an Int entry holding 1. |
| NmlRead.CommentCutMeaning | src/namelist.c:119-129 | The comment scan fails exactly when a quote is left open with no comment mark before it. Otherwise it cuts at the first '!' or '#' outside quotes, or keeps the whole line. |
| NmlRead.CommentCutFrom | src/namelist.c:119-129 | From a position outside quotes, the scan cuts at the first comment mark. It fails exactly when a quote stays open to the end with no mark. |
| NmlRead.CutComment | src/namelist.c:119-129 | The scanning loop computes `CommentCut`. |
| NmlRead.Clean | src/namelist.c:119-136 | Cutting the comment and trimming compute `Cleaned`. |
| NmlRead.Fetch | src/namelist.c:104-138 | A line is returned only when non-empty, and the line number advances by one. At end of file the result is NULL with an empty buffer. An open quote is fatal. |
| NmlRead.FetchShape | src/namelist.c:104-138 | The returned line is the first piece that leaves text once its line end, comment and blanks are gone. That line has no leading or trailing blank, and every piece passed over left nothing. |
| NmlRead.ReadLineShape | src/namelist.c:92-142 | A line returned by readline is never empty, has no leading or trailing space or tab, and is the cleaned form of one input piece. |
| NmlRead.ReadLineSpec | src/namelist.c:92-142 | readline moves forward. Once the end-of-file flag is set, it returns NULL and the buffer keeps its last contents. |
| NmlRead.Reader.constructor | src/namelist.c:374 | A reader starts at the first piece with an empty buffer and line number 0. |
| NmlRead.Reader.ReadLine | src/namelist.c:92-142 | The new buffer, position, flag and line number are those of `ReadLineSpec`. |
| NmlRead.EntrySplit | src/namelist.c:149-165 | A line without '=' is a syntax error naming the line and its number. Otherwise the name contains no '='. |
| NmlRead.EntryName | src/namelist.c:149-165 | The name is the text before the first '=' with trailing blanks removed. The values start after the '=' and its following blanks. |
| NmlRead.Reader.TrimBufName | src/namelist.c:149-165 | The buffer becomes the name and the value offset is returned, as `EntrySplit` says. Nothing else of the reader changes. |
| NmlRead.FindChar | src/namelist.c:151 | The search computes `IndexFrom`. |
| NmlParse.EntryLines | src/namelist.c:316-325 | The entry ends with 1 on a line "/", with 0 on a line containing '=', and with -1 at end of file. Continuation lines add values. |
| NmlParse.GetEntrySpec | src/namelist.c:306-326 | A current line without '=' is a syntax error. Otherwise reading moves forward. |
| NmlParse.GetEntry | src/namelist.c:306-326 | get_entry computes `GetEntrySpec`: the entry, its return code and where reading stands. |
| NmlParse.EntriesFrom | src/namelist.c:343-347 | A section's entries end on a line "/". |
| NmlParse.SectionSpec | src/namelist.c:333-350 | A section keeps its name, starts unseen and ends on "/". |
| NmlParse.GetSection | src/namelist.c:333-350 | get_section computes `SectionSpec`. |
| NmlParse.ParseSections | src/namelist.c:374-387 | The section loop of open_namelist computes `SectionsFrom`: one section per `&NAME` line in file order, named by the text after '&'. A line not starting with '&' gives -1. |
| NmlParse.ParseFile | src/namelist.c:357-396 | The sections of a whole file. Its properties are stated by ParseSections, ParseFileCoherent, EmptySection, NotASection and MissingEquals. |
| NmlParse.ParseFileCoherent | src/namelist.c:357-396 | Every entry of a parsed file is coherent. |
| NmlParse.EntryLinesCoherent | src/namelist.c:316-323 | Reading continuation lines keeps the entry coherent. |
| NmlParse.GetEntryCoherent | src/namelist.c:306-326 | An entry read by get_entry is coherent. |
| NmlParse.EntriesFromCoherent | src/namelist.c:343-347 | Every entry of a section is coherent. |
| NmlParse.SectionsFromCoherent | src/namelist.c:374-387 | Every section parsed from a file is coherent. |
| NmlParse.FetchPlain | src/namelist.c:104-140 | A line with no comment marks, quotes or surrounding blanks is returned as is, and the line number advances by one. |
| NmlParse.EmptySection | src/namelist.c:340-341 | `&sec` directly followed by "/" gives a section with no entries. |
| NmlParse.NotASection | src/namelist.c:376-383 | A top-level line not starting with '&' makes the open fail. |
| NmlParse.MissingEquals | src/namelist.c:153-156 | A line without '=' where an entry is expected is a syntax error at that line. |
| NmlParse.EmptyEntry | src/namelist.c:316-317 | An entry `a =` with nothing after the '=' is kept with no values. |
| NmlParse.EmptyEntryLine | src/namelist.c:316-320 | `a =` followed by "/" gives the entry `a` with no values and return code 1. |
| NmlParse.EmptyEntrySection | src/namelist.c:333-350 | The section `&g` / `a =` / `/` holds the single entry `a` with no values. |
| NmlStore.EntryNames | src/namelist.c:414-418 | The names of a section's entries in order. |
| NmlStore.FindIsFirst | src/namelist.c:403-421 | The lookup fails exactly when no section of that name, ignoring case, holds the entry. Otherwise it returns the first such section and the first entry of that name in it. |
| NmlStore.FindEntry | src/namelist.c:414-418 | The entry loop returns the first name that matches ignoring case, or -1. |
| NmlStore.SearchSections | src/namelist.c:408-420 | The section loop returns `Find` and marks seen every section of that name up to the one that holds the entry. |
| NmlStore.MarkUpTo | src/namelist.c:412 | Exactly the sections of that name visited before the search stops are marked seen; nothing else changes. |
| NmlStore.SetSeen | src/namelist.c:412-418 | Setting a seen flag keeps the names of every section and entry, and keeps the sections coherent. |
| NmlStore.FindSameNames | src/namelist.c:403-421 | Marking sections or entries seen never changes what a lookup finds. |
| NmlStore.Bind | src/namelist.c:512-558 | Corrected (see Findings): scalar Str and Bool requests leave the target alone on an entry with no values. Otherwise as written: a scalar Int request is written only from an Int entry. A scalar Double request is written from a Double entry or, widened, from an Int entry. Scalar Str and Bool requests copy the first value. A list request copies every value, widening Int to real element by element for a double list. An unknown type code leaves the target alone. |
| NmlStore.BindFixesOnlyTheCrash | src/namelist.c:548-553 | The written bind crashes exactly on a scalar Str or Bool request for an entry with no values. Everywhere else the corrected bind equals it. |
| NmlStore.EmptyEntryCrashes | src/namelist.c:548-549 | The written bind of an entry without values as a scalar Str crashes. |
| NmlStore.BindAsWritten | src/namelist.c:512-558 | get_namelist's bind as written. It crashes exactly on a scalar Str or Bool request for an entry with no values. Otherwise such a request is marked seen and writes a scalar. |
| NmlStore.ViewAll | src/namelist.c:428-481 | Each copy_*_list copies every cell through one union member, in order. |
| NmlStore.CopyList | src/namelist.c:428-481 | The copy loop computes `ViewAll`. |
| NmlStore.BindEntry | src/namelist.c:512-558 | Corrected (see Findings): binding one record computes `Bind`. |
| NmlStore.BindRecord | src/namelist.c:509-560 | Binding keeps the sections coherent and the names unchanged. The record is found exactly when `Find` finds it; a record not found leaves its target alone. |
| NmlStore.End | src/namelist.c:509 | The record loop stops at the first TYPE_END record. |
| NmlStore.BindFromRet | src/namelist.c:503-563 | get_namelist returns 0 exactly when some record before the terminator names an existing entry, and -1 otherwise. |
| NmlStore.BindFromKeeps | src/namelist.c:512 | Targets of records that are not found, or that lie outside the record list, are left untouched. |
| NmlStore.BindRecords | src/namelist.c:509-561 | The record loop computes `BindFrom`. |
| NmlStore.BindFromStep | src/namelist.c:509-560 | Binding from record i is binding record i, then binding from i + 1. The return code becomes 0 when record i was found. |
| NmlStore.BindOne | src/namelist.c:510-560 | Binding one record computes `BindRecord`. |
| NmlStore.BindNext | src/namelist.c:510-560 | One pass of the record loop binds one record and keeps the sections coherent. |
| NmlStore.UnboundEmpty | src/namelist.c:643-646 | No entry is reported exactly when every entry of every section that was looked up has been bound. |
| NmlStore.ReportUnbound | src/namelist.c:626-656 | The close loop reports `Unbound`: each never-bound entry of a looked-up section, in file order. |
| NmlStore.Unbound | src/namelist.c:626-646 | The report of close_namelist. Its meaning is stated by UnboundEmpty. |
| NmlStore.Registry.constructor | src/namelist.c:357-369 | The registry starts with no files. |
| NmlStore.Registry.OpenNamelist | src/namelist.c:357-396 | The result is -1 when the file does not open or a top-level line does not start with '&'. A parse error is fatal. Otherwise the next handle is returned and the file's sections are added. |
| NmlStore.Registry.FindNamelistEntry | src/namelist.c:403-421 | The entry found and the sections marked seen are those of `Find` and `MarkUpTo`. |
| NmlStore.Registry.GetNmlListlen | src/namelist.c:488-493 | 0 when the entry is absent, and its number of values otherwise. Lookup marks are kept. |
| NmlStore.Registry.GetNamelist | src/namelist.c:500-564 | Corrected (see Findings): binding uses `Bind`. -1 unless the first record is TYPE_START. Otherwise the result, targets and sections are those of binding every record up to TYPE_END. The handle stays open. |
| NmlStore.GetNamelistSpec | src/namelist.c:500-564 | Keeps every entry coherent and one target per record. When the first record is not TYPE_START, it returns -1 and changes nothing. |
| NmlStore.Registry.CloseNamelist | src/namelist.c:619-660 | Returns the unbound entries of looked-up sections (the C exits when there are any) and marks the file closed. |

## Left out

- Stream I/O (`fopen`, `fgets`, `feof`, `fclose`, `fprintf`, `fputs`, `setlinebuf`) is not modelled. Input is a sequence of `fgets` pieces or `None` for a failed `fopen`, and output is an appended sequence of pieces.
- The piecewise `fgets` growth of the 10240-character buffers is not modelled. A line is one piece.
- Floating point is not modelled:
  - `sscanf("%lf")` is a parameter, and the NaN sentinel is not modelled;
  - `%12.6f`/`%15.6f` values are kept as reals, not text;
  - `find_day` is not modelled;
  - `load_csv_line` is not modelled. Its fractional-day time stamp is floating point, so `OpenCsvInput` takes the loaded values as a parameter.
- `count_lines` is not modelled: it only counts `read_line` results.
- The format strings passed to `sscanf`/`sprintf` by read/write_time_formatted are not interpreted. The values scanned are a parameter, and the values written are the routed argument list.
- Pointer ownership is not modelled:
  - `malloc`, `realloc`, `free` and aliasing are out of scope; lists are values;
  - so are the use of an unquoted Str token after it is freed (src/namelist.c:267, 274) and the string sharing of `copy_str_list`.
- The C union is modelled by `View`s and `VJunk`. A cell read through the wrong member has no meaningful value.
- `show_entry`, `show_namelist` and `CRASH` are debug code and are not modelled.
- MAX_IN_FILES and MAX_OUT_FILES are constructor parameters. MAX_OUT_VALUES is a constant (`BuffSize`).
- Fixed buffers become preconditions: `fmtbuf[80]` and `buff[MAX_OUT_VALUES+4]`.
- NmlStore.Registry.GetNamelist: a record list with no TYPE_END terminator is excluded by its requires. It binds with the corrected `Bind`, so the NULL dereference at src/namelist.c:548-553 is not reproduced; `BindAsWritten` models it as `Crash`.
- NmlStore.Bind: is the corrected bind. As written, a scalar Str or Bool request for an entry with no values dereferences NULL (see Findings).
- NmlStore.BindEntry: computes the corrected `Bind`, with the same difference from the code as written.
- NmlStore.Registry.FindNamelistEntry: requires a handle that names an opened file not yet closed. After close_namelist the sections are freed and a lookup would read freed memory. The same holds for GetNmlListlen and GetNamelist, and for CloseNamelist, where a second close frees twice.
- CsvInput.CsvInputs.CloseCsvInput: uses the corrected guard (see Findings). As written, `close_csv_input(_n_inf)` is accepted and returns 0. It clears a slot that is already empty, or one past the table when the table is full.
- CsvInput.CsvInputs.GetCsvColname: requires `InTable(csv)`. A negative csv while `_n_inf >= 0` makes the C read `csv_if[csv]` before the table.
- CsvInput.CsvInputs.FindCsvVar: requires `InTable(csv)`, for the same read before the table.
- CsvOutput.CsvOutputs.OpenCsvOutput: checks for a full table, which the C does not (see Findings). As written, the open stores into `csv_of[_n_outf]` past the table.
- CsvOutput.CsvOutputs.CloseCsvOutput: requires the slot to be open. Closing a never-opened or already-closed slot is `fclose(NULL)` in the C, which is undefined.
- TimeFormat.DecodeTimeFormat: for the empty pattern the model returns the empty format. The C stores the terminator only inside its loop (src/aed_time.c:170-198), so `strdup` then copies an uninitialised buffer.
- AedTime.TimeDiffMeaning: integers are unbounded. The C computes `86400 * (jul1 - jul2)` in int, which overflows once the days are more than 24855 apart.
- NmlValue.DecodeIntText: assumes the number fits an int. `sscanf("%d")` on a longer digit string is undefined in the C, while `ScanIntUnbounded` returns any integer.
- CsvInput.CsvInputs.GetCsvValIIsTruncated: assumes the value lies in int range. The C's conversion of a double to int is undefined outside it, while `Trunc` has no bound.
- CsvSplit.BreakLine: requires the scan to stay within the line. A line ending in a backslash makes the C read past its terminator; `TrailingBackslash` shows this and the method excludes it.
- NmlStore.Registry.CloseNamelist: returns the unbound list instead of exiting. It does not model the freeing.
- The library's documentation and the code differ in several places. The model follows the code:
  - The documentation describes an `include` directive, list caching and a permissive close mode; none exists in the code.
  - The documentation has a backslash escape outside quotes in `readline`; the code's backslash only steps over itself there.
  - The documentation has an empty token decode as "no data"; the code decodes it as an empty Str (SpaceTokenIsStr).
  - The documentation says scalar Str and Bool binds require the types to agree; the code copies `data[0]` with no check.
  - The documentation splits at the first unescaped '='; the code's name ends at the first '=' of the line.

## Findings

| source | as written | input that shows it | evidently intended | confidence | as-written member | corrected member |
|---|---|---|---|---|---|---|
| src/aed_time.c:221-223 | The guards `n > 2`, `n > 4` and `n > 5` assume the fields were scanned in the order Y, M, D, h, m, s. | Pattern `hh:mm YYYY-MM-DD` with input "12:30 2020". Three values are scanned, but the read uses the day and month slots, which sscanf never stored. | Read a field only when its own slot was stored. | not executed | TimeFormat.ReadTimeFormattedUninitialised | TimeFormat.ReadWriteTimeFormattedChecked |
| src/aed_csv.c:218 | `close_csv_input` refuses only `csvf < 0` and `csvf > _n_inf`. | `close_csv_input(MAX_IN_FILES)` with a full table. It is accepted and clears `csv_if[MAX_IN_FILES]`, one slot past the table. | Accept `0 <= csvf < _n_inf`. | not executed | CsvInput.CloseAcceptsPastTable | CsvInput.CloseGuardsAgree |
| src/aed_csv.c:420 | `open_csv_output` writes `csv_of[_n_outf]` without checking `_n_outf < MAX_OUT_FILES`. | MAX_OUT_FILES + 1 successful opens. The last one writes `csv_of[MAX_OUT_FILES]`. | Return -1 when the table is full. | not executed | CsvOutput.OpenOverrunsTable | CsvOutput.SlotsWrittenInTable |
| src/namelist.c:548-553 | Scalar Str and Bool binds read `data[0]` even when the entry has no values, and `data` is then NULL. | The file `&g` / `a =` / `/`, then `get_namelist` with a scalar string record for `a` (type 3). | Leave the target alone when the entry has no values. | not executed | NmlStore.EmptyEntryCrashes | NmlStore.BindFixesOnlyTheCrash |
