# Quarter-hour CSV export: the day-by-day pivot

This project models the core of the quarter-hour CSV generator. The
generator reads measurement documents from one MongoDB collection and writes
them as a dense `;`-separated grid:

- a header line: `MEASYM_MEASDD_MEASTYPE;` followed by every POD (point of
  delivery) and `;`;
- then, for every day in `[startDate, endDate)`, 96 rows, one per
  15-minute slot;
- a row starts with `yyyy-MM-dd HH:MM;` and has one cell per POD, in the
  header's column order;
- a cell holds the stored text `val_MEASTYPE` of that day, slot and POD, or
  is empty;
- every POD with an empty cell goes into a run-wide set;
- when several documents share a day-slot id and a POD, the first one that
  is not a zero placeholder (text starting with `0.0_`) wins.

The modules follow the parts of the program:

| module | what it holds |
|---|---|
| `Text` | Decimal numerals and `%02d` / `leftPad` zero padding. Also Java's string order as used by `StringUtils.compare`, and `;`-terminated field lists with their read-back. |
| `Slots` | `idToString` (slot number to `HH:MM`) and the two-digit slot key. |
| `Calendar` | A proleptic Gregorian date, `Calendar.add(DAY_OF_YEAR, 1)`, the `yyyyMMdd` key, the `yyyy-MM-dd` display form and parsing. |
| `DayWindows` | The sequence of one-day windows `[minDay, maxDay)` the loop walks through. |
| `Pivot` | The duplicate-resolution fold into the per-day `HashMap`, as a method with a loop, plus its rule stated on its own (`Winner`). |
| `Grid` | The header, the 96 rows of a day and the missing-POD set of a day, as methods with the source's nested loops, each proved equal to a specification function. |
| `Export` | The body of `run` from the POD check to the end of the day loop: the two `exit(5)` paths, the probe query, the `while` loop over `minDay`/`maxDay`, the cleared map and the growing missing set. |

How the environment is represented:

- The collection is a sequence `db` of documents `(MEAS_YMDD_ID, POD,
  MEAS_TYPE, value text)`, in the order the day query's sort stage puts them
  (`MEAS_YMDD_ID`, `POD`, `MEAS_TYPE`).
- A range query is the order-preserving filter `Query`.
- The distinct-POD list is an input `pods`.
- The output file is the sequence of lines handed to the writer. Each line
  is stored without its trailing `"\n"`.
- The value text of a document is opaque: `Double.toString` of the value.

## Model

| member | source | states |
|---|---|---|
| Slots.SlotLabel | src/main/java/com/dxc/quartorariecsvgenerator/QuartorarieCsvGeneratorApplication.java:244-254 | The label of every slot 1..96 has five characters with ':' in the middle. |
| Slots.SlotLabelParts | src/main/java/com/dxc/quartorariecsvgenerator/QuartorarieCsvGeneratorApplication.java:244-254 | The label is the two-digit numeral of (n-1)/4, then ':', then the two-digit numeral of (n-1)%4*15. |
| Slots.SlotLabelStart | src/main/java/com/dxc/quartorariecsvgenerator/QuartorarieCsvGeneratorApplication.java:244-254 | The label reads as hours and minutes with minutes < 60, and hours*60 + minutes is the slot's start, 15*(n-1) minutes after midnight. |
| Slots.SlotLabelFirstAndLast | src/main/java/com/dxc/quartorariecsvgenerator/QuartorarieCsvGeneratorApplication.java:244-254 | Slot 1 is "00:00" and slot 96 is "23:45". |
| Slots.SlotLabelRoundTrip | src/main/java/com/dxc/quartorariecsvgenerator/QuartorarieCsvGeneratorApplication.java:244-254 | Parsing the label of slot n gives back n. |
| Slots.ParsedSlotLabel | src/main/java/com/dxc/quartorariecsvgenerator/QuartorarieCsvGeneratorApplication.java:244-254 | Every text that parses as a quarter-hour label is a slot in 1..96 and is exactly that slot's label, so labels and slots correspond one to one. |
| Slots.SlotLabelIncreasing | src/main/java/com/dxc/quartorariecsvgenerator/QuartorarieCsvGeneratorApplication.java:244-254 | Labels strictly increase in string order as the slot number increases. |
| Slots.SlotKey | src/main/java/com/dxc/quartorariecsvgenerator/QuartorarieCsvGeneratorApplication.java:219 | leftPad(valueOf(k), 2, "0") has two characters for every slot. |
| Slots.SlotKeyValue | src/main/java/com/dxc/quartorariecsvgenerator/QuartorarieCsvGeneratorApplication.java:219 | The slot key is all digits and denotes k. |
| Text.DecimalString | src/main/java/com/dxc/quartorariecsvgenerator/QuartorarieCsvGeneratorApplication.java:219 | String.valueOf of a non-negative number is a non-empty string of decimal digits. |
| Text.LeftPad | src/main/java/com/dxc/quartorariecsvgenerator/QuartorarieCsvGeneratorApplication.java:219 | leftPad(s, size, pad) has length max(|s|, size). |
| Text.ZeroPad | src/main/java/com/dxc/quartorariecsvgenerator/QuartorarieCsvGeneratorApplication.java:249-250 | String.format("%02d") is at least as wide as the width and as the plain numeral. |
| Text.ZeroPadIsPad | src/main/java/com/dxc/quartorariecsvgenerator/QuartorarieCsvGeneratorApplication.java:249-250 | Zero padding a number that fits the width gives the fixed-width numeral, whose digits denote the number. |
| Text.DecimalStringValue | src/main/java/com/dxc/quartorariecsvgenerator/QuartorarieCsvGeneratorApplication.java:219 | String.valueOf of a non-negative number denotes that number and has no leading zero. |
| Text.LeftPadParts | src/main/java/com/dxc/quartorariecsvgenerator/QuartorarieCsvGeneratorApplication.java:219 | leftPad keeps the text as its suffix and fills everything before it with the pad character. |
| Text.PadValue | src/main/java/com/dxc/quartorariecsvgenerator/QuartorarieCsvGeneratorApplication.java:249-250 | A fixed-width numeral denotes its number. |
| Text.ValuePad | src/main/java/com/dxc/quartorariecsvgenerator/QuartorarieCsvGeneratorApplication.java:249-250 | Every digit string is the fixed-width numeral of the number it denotes. |
| Text.PadInjective | src/main/java/com/dxc/quartorariecsvgenerator/QuartorarieCsvGeneratorApplication.java:249-250 | Two numbers have the same fixed-width numeral exactly when they are equal. |
| Text.PadOrder | src/main/java/com/dxc/quartorariecsvgenerator/QuartorarieCsvGeneratorApplication.java:157 | Fixed-width numerals compare as strings exactly as their numbers compare. |
| Text.LexLe | src/main/java/com/dxc/quartorariecsvgenerator/QuartorarieCsvGeneratorApplication.java:157 | StringUtils.compare(a, b) <= 0 holds whenever a is a prefix of b; the order on fixed-width numerals and on date keys is proved from it in Text.PadOrder and Calendar.KeyOrder. |
| Text.LexLeTransitive | src/main/java/com/dxc/quartorariecsvgenerator/QuartorarieCsvGeneratorApplication.java:157 | The string order used by the loop guard is transitive. |
| Text.FieldsTerminated | src/main/java/com/dxc/quartorariecsvgenerator/QuartorarieCsvGeneratorApplication.java:124-128 | Cutting a ';'-terminated line at each ';' gives back its fields, when no field contains ';'. |
| Calendar.DaysInMonth | src/main/java/com/dxc/quartorariecsvgenerator/QuartorarieCsvGeneratorApplication.java:136 | A month has 28 to 31 days; exactly February of a Gregorian leap year has 29. |
| Calendar.NextDay | src/main/java/com/dxc/quartorariecsvgenerator/QuartorarieCsvGeneratorApplication.java:233-235 | The day after d is later than d, and is a valid date unless d is 9999-12-31. |
| Calendar.NextDayIsSuccessor | src/main/java/com/dxc/quartorariecsvgenerator/QuartorarieCsvGeneratorApplication.java:233-235 | No valid date lies strictly between a day and its next day. |
| Calendar.Key | src/main/java/com/dxc/quartorariecsvgenerator/QuartorarieCsvGeneratorApplication.java:135-137 | datesFormat.format gives eight decimal digits for every supported date. |
| Calendar.ParseKey | src/main/java/com/dxc/quartorariecsvgenerator/QuartorarieCsvGeneratorApplication.java:134 | datesFormat.parse reads year, month and day from fixed-width fields: a year below 10000, month and day below 100. |
| Calendar.DisplayDate | src/main/java/com/dxc/quartorariecsvgenerator/QuartorarieCsvGeneratorApplication.java:214 | sdfOutput.format gives ten characters with '-' at positions 4 and 7. |
| Calendar.ParseKeyOfKey | src/main/java/com/dxc/quartorariecsvgenerator/QuartorarieCsvGeneratorApplication.java:133-135 | Parsing the yyyyMMdd text of a date gives back the date. |
| Calendar.KeyOfParseKey | src/main/java/com/dxc/quartorariecsvgenerator/QuartorarieCsvGeneratorApplication.java:232-235 | Formatting a parsed eight-digit text that names a valid date gives back the text. |
| Calendar.DisplayDateOfKey | src/main/java/com/dxc/quartorariecsvgenerator/QuartorarieCsvGeneratorApplication.java:214 | The yyyy-MM-dd form of minDay is its yyyyMMdd key with '-' after the year and after the month. |
| Calendar.KeyOrder | src/main/java/com/dxc/quartorariecsvgenerator/QuartorarieCsvGeneratorApplication.java:157 | Date keys compare as strings exactly as the dates compare in time. |
| Calendar.LoopGuard | src/main/java/com/dxc/quartorariecsvgenerator/QuartorarieCsvGeneratorApplication.java:157 | compare(maxDay, endDate) <= 0, with maxDay the day after d, holds exactly when d is before the end date. |
| Calendar.GuardPassesAfterLastDay | src/main/java/com/dxc/quartorariecsvgenerator/QuartorarieCsvGeneratorApplication.java:232-235 | The day after 9999-12-31 is 10000-01-01, formatted "100000101", which compares at most "99991231", although 9999-12-31 is not before itself. |
| DayWindows.Windows | src/main/java/com/dxc/quartorariecsvgenerator/QuartorarieCsvGeneratorApplication.java:155-236 | Every window start is a supported date in [start, end). |
| DayWindows.WindowsAreTheDaysInRange | src/main/java/com/dxc/quartorariecsvgenerator/QuartorarieCsvGeneratorApplication.java:155-236 | A valid date is a window start exactly when start <= d < end, so there are none when start >= end. |
| DayWindows.WindowsConsecutive | src/main/java/com/dxc/quartorariecsvgenerator/QuartorarieCsvGeneratorApplication.java:232-235 | The first window starts at the start date and each window starts on the day after the previous one. |
| DayWindows.WindowsIncreasing | src/main/java/com/dxc/quartorariecsvgenerator/QuartorarieCsvGeneratorApplication.java:232-235 | Window starts strictly increase, so no day is written twice. |
| DayWindows.WindowsSnoc | src/main/java/com/dxc/quartorariecsvgenerator/QuartorarieCsvGeneratorApplication.java:155-236 | Moving the end one day further adds exactly the old end as the last window. |
| DayWindows.WindowsOfFirstDaysOf2024 | src/main/java/com/dxc/quartorariecsvgenerator/QuartorarieCsvGeneratorApplication.java:155-236 | From 20240101 to 20240104 the loop runs for 1, 2 and 3 January. |
| DayWindows.WindowsAcrossTheLeapDay | src/main/java/com/dxc/quartorariecsvgenerator/QuartorarieCsvGeneratorApplication.java:233-235 | The day step goes 2024-02-28, 2024-02-29, 2024-03-01. |
| DayWindows.WindowsAcrossNewYear | src/main/java/com/dxc/quartorariecsvgenerator/QuartorarieCsvGeneratorApplication.java:233-235 | The day step goes from 2023-12-31 to 2024-01-01. |
| Pivot.MapKey | src/main/java/com/dxc/quartorariecsvgenerator/QuartorarieCsvGeneratorApplication.java:205 | The map key is MEAS_YMDD_ID, '_' and POD, in that order. |
| Pivot.MapKeyInjective | src/main/java/com/dxc/quartorariecsvgenerator/QuartorarieCsvGeneratorApplication.java:205 | For ids of equal length, two documents have the same map key exactly when their ids and PODs are equal. |
| Pivot.StoredText | src/main/java/com/dxc/quartorariecsvgenerator/QuartorarieCsvGeneratorApplication.java:207 | The stored text is the value text, '_' and MEAS_TYPE, in that order. |
| Pivot.Accepts | src/main/java/com/dxc/quartorariecsvgenerator/QuartorarieCsvGeneratorApplication.java:206 | The put happens when the key is absent, and never when the key holds a text that does not start with "0.0_". |
| Pivot.Put | src/main/java/com/dxc/quartorariecsvgenerator/QuartorarieCsvGeneratorApplication.java:205-209 | One document adds its key. The key gets val_MEASTYPE when it was absent or held a zero placeholder, and keeps its text otherwise. Every other key is unchanged. |
| Pivot.FoldDay | src/main/java/com/dxc/quartorariecsvgenerator/QuartorarieCsvGeneratorApplication.java:203-210 | The loop over the day's documents leaves the map of the fold and counts the refused documents (the logged warnings). |
| Pivot.FoldResolvesByWinner | src/main/java/com/dxc/quartorariecsvgenerator/QuartorarieCsvGeneratorApplication.java:203-210 | A key is in the day's map exactly when some document has it. Its text is then the winner of that key's texts in stream order. |
| Pivot.WinnerIsFirstRealReading | src/main/java/com/dxc/quartorariecsvgenerator/QuartorarieCsvGeneratorApplication.java:206-209 | The winner is the first text that is not a zero placeholder. |
| Pivot.WinnerOfPlaceholders | src/main/java/com/dxc/quartorariecsvgenerator/QuartorarieCsvGeneratorApplication.java:206-207 | When every text is a zero placeholder, the winner is the last one. |
| Pivot.WinnerSnoc | src/main/java/com/dxc/quartorariecsvgenerator/QuartorarieCsvGeneratorApplication.java:206-209 | A later document replaces the winner exactly when the winner so far is a zero placeholder. |
| Pivot.FoldValuesComeFromTuples | src/main/java/com/dxc/quartorariecsvgenerator/QuartorarieCsvGeneratorApplication.java:207 | Every stored text is val_MEASTYPE of a document with that key. |
| Pivot.FoldValuesNonEmpty | src/main/java/com/dxc/quartorariecsvgenerator/QuartorarieCsvGeneratorApplication.java:207 | No stored text is empty, so an empty cell always means a missing key. |
| Pivot.AnomaliesBound | src/main/java/com/dxc/quartorariecsvgenerator/QuartorarieCsvGeneratorApplication.java:208-209 | Refused documents plus distinct keys never exceed the number of documents. |
| Pivot.ZeroPlaceholderSuperseded | src/main/java/com/dxc/quartorariecsvgenerator/QuartorarieCsvGeneratorApplication.java:206-207 | A 0.0 reading followed by 12.5 for the same key stores 12.5_1, with no warning. |
| Pivot.FirstRealReadingKept | src/main/java/com/dxc/quartorariecsvgenerator/QuartorarieCsvGeneratorApplication.java:206-209 | A 9.0 reading followed by 12.5 for the same key keeps 9.0_0 and logs one warning. |
| Grid.BuildHeader | src/main/java/com/dxc/quartorariecsvgenerator/QuartorarieCsvGeneratorApplication.java:124-127 | The header loop builds the title and every POD in list order, each followed by ';'. |
| Grid.HeaderLine | src/main/java/com/dxc/quartorariecsvgenerator/QuartorarieCsvGeneratorApplication.java:124-127 | The header starts with the title and ';', and ends with ';'. |
| Grid.HeaderColumns | src/main/java/com/dxc/quartorariecsvgenerator/QuartorarieCsvGeneratorApplication.java:124-128 | Reading the header back gives the title and then the PODs in list order. |
| Grid.RowColumns | src/main/java/com/dxc/quartorariecsvgenerator/QuartorarieCsvGeneratorApplication.java:212-225 | Reading a row back gives the date-time stamp and then one cell per POD in list order. |
| Grid.ColumnsAligned | src/main/java/com/dxc/quartorariecsvgenerator/QuartorarieCsvGeneratorApplication.java:124-128 | Header and row have the same number of columns, and column j+1 of the header names the POD whose cell is column j+1 of every row. |
| Grid.EmitDay | src/main/java/com/dxc/quartorariecsvgenerator/QuartorarieCsvGeneratorApplication.java:212-229 | The 96-slot loop yields the day's rows and adds the day's missing PODs to the set. |
| Grid.EmitRow | src/main/java/com/dxc/quartorariecsvgenerator/QuartorarieCsvGeneratorApplication.java:214-225 | One pass builds row k of the day and adds the PODs missing in slot k to the set. |
| Grid.Stamp | src/main/java/com/dxc/quartorariecsvgenerator/QuartorarieCsvGeneratorApplication.java:214-217 | The stamp is 16 characters, with a blank between the yyyy-MM-dd date and the HH:MM label. |
| Grid.RowLine | src/main/java/com/dxc/quartorariecsvgenerator/QuartorarieCsvGeneratorApplication.java:212-225 | A row is the 16-character stamp, then ';', and ends with ';'. |
| Grid.CellKey | src/main/java/com/dxc/quartorariecsvgenerator/QuartorarieCsvGeneratorApplication.java:219 | The looked-up key is minDay, '_', the two-digit slot key, '_' and the POD: '_' stands right after the day key and three characters later. |
| Grid.CellText | src/main/java/com/dxc/quartorariecsvgenerator/QuartorarieCsvGeneratorApplication.java:221 | An absent key gives the empty cell; a non-empty cell is the text stored under the key. |
| Grid.AppendCells | src/main/java/com/dxc/quartorariecsvgenerator/QuartorarieCsvGeneratorApplication.java:218-225 | The POD loop appends each POD's cell and ';', and adds the PODs whose key is absent. |
| Grid.RowsUpToLength | src/main/java/com/dxc/quartorariecsvgenerator/QuartorarieCsvGeneratorApplication.java:213-229 | After n passes of the slot loop there are n rows. |
| Grid.RowsUpToRow | src/main/java/com/dxc/quartorariecsvgenerator/QuartorarieCsvGeneratorApplication.java:213-229 | After n passes of the slot loop, row i is the row of slot i+1. |
| Grid.DayRowsAreSlots | src/main/java/com/dxc/quartorariecsvgenerator/QuartorarieCsvGeneratorApplication.java:213-229 | A day has exactly 96 rows, in slot order 1..96. |
| Grid.RowCells | src/main/java/com/dxc/quartorariecsvgenerator/QuartorarieCsvGeneratorApplication.java:218-221 | A row has one cell per POD. |
| Grid.MissingInSlotMeaning | src/main/java/com/dxc/quartorariecsvgenerator/QuartorarieCsvGeneratorApplication.java:218-224 | After j PODs of slot k, the set holds exactly those of them whose key is absent. |
| Grid.MissingBeforeMeaning | src/main/java/com/dxc/quartorariecsvgenerator/QuartorarieCsvGeneratorApplication.java:213-225 | Before slot n, the set holds exactly the PODs whose key is absent in some earlier slot. |
| Grid.DayMissingMeaning | src/main/java/com/dxc/quartorariecsvgenerator/QuartorarieCsvGeneratorApplication.java:213-225 | A POD is missing in a day exactly when its key is absent in some slot of that day. |
| Grid.DayMissingIsEmptyCells | src/main/java/com/dxc/quartorariecsvgenerator/QuartorarieCsvGeneratorApplication.java:221-223 | With no empty stored text, a POD is missing in a day exactly when one of its cells in that day is empty. |
| Grid.CellKeyMatches | src/main/java/com/dxc/quartorariecsvgenerator/QuartorarieCsvGeneratorApplication.java:205-219 | For an id of the length of yyyyMMdd_NN, a document's map key is the key looked up for (day, slot k, POD) exactly when its id is the day key, '_' and the slot key, and its POD is that POD. |
| Grid.NoSeparatorInStamp | src/main/java/com/dxc/quartorariecsvgenerator/QuartorarieCsvGeneratorApplication.java:214-217 | The date-time stamp of a row contains no ';'. |
| Grid.NoSeparatorInCells | src/main/java/com/dxc/quartorariecsvgenerator/QuartorarieCsvGeneratorApplication.java:221 | No cell contains ';' when no stored text does. |
| Grid.StampIncreasing | src/main/java/com/dxc/quartorariecsvgenerator/QuartorarieCsvGeneratorApplication.java:213-217 | Within a day the stamps strictly increase in string order. |
| Export.Run | src/main/java/com/dxc/quartorariecsvgenerator/QuartorarieCsvGeneratorApplication.java:118-236 | Without PODs: exit before any line. Without a measurement in [startDate, endDate): exit after the header. Otherwise: the header, the rows of every window in order, and the set of every day's missing PODs. |
| Export.WriteDays | src/main/java/com/dxc/quartorariecsvgenerator/QuartorarieCsvGeneratorApplication.java:131-236 | After the header: the probe decides the exit; otherwise the day loop's rows and missing set. |
| Export.DayLoop | src/main/java/com/dxc/quartorariecsvgenerator/QuartorarieCsvGeneratorApplication.java:155-236 | The while loop over minDay/maxDay writes the rows of each window in order and collects every day's missing PODs. |
| Export.ExportDay | src/main/java/com/dxc/quartorariecsvgenerator/QuartorarieCsvGeneratorApplication.java:159-229 | One iteration clears the map, folds that day's documents and writes its 96 rows. |
| Export.ExitCode | src/main/java/com/dxc/quartorariecsvgenerator/QuartorarieCsvGeneratorApplication.java:149-152 | Both early stops map to exit code 5. Code 0 stands exactly for Completed, which means only that the day loop ended; the process status after lines 237-241 is not modelled. |
| Export.Selected | src/main/java/com/dxc/quartorariecsvgenerator/QuartorarieCsvGeneratorApplication.java:162 | A document passes the day match only when its POD is listed and the window is not empty in string order. |
| Export.Query | src/main/java/com/dxc/quartorariecsvgenerator/QuartorarieCsvGeneratorApplication.java:162-173 | The match stage keeps at most the documents of the collection. |
| Export.HasMeasurements | src/main/java/com/dxc/quartorariecsvgenerator/QuartorarieCsvGeneratorApplication.java:140-152 | The probe finds something only when some document of a listed POD lies in [startDate, endDate). |
| Export.HasMeasurementsMeaning | src/main/java/com/dxc/quartorariecsvgenerator/QuartorarieCsvGeneratorApplication.java:140-152 | Any document of a listed POD in [startDate, endDate) makes the probe find something. |
| Export.QueryMembers | src/main/java/com/dxc/quartorariecsvgenerator/QuartorarieCsvGeneratorApplication.java:162 | A document is in a range query's result exactly when it is in the collection, its id is in [lo, hi) and its POD is listed. |
| Export.QueryConcat | src/main/java/com/dxc/quartorariecsvgenerator/QuartorarieCsvGeneratorApplication.java:162-173 | Querying two parts of the collection gives the two results one after the other. |
| Export.DayTuplesAreThatDay | src/main/java/com/dxc/quartorariecsvgenerator/QuartorarieCsvGeneratorApplication.java:162 | A document whose id starts with the key of day x is in day d's query exactly when x is d and its POD is listed. |
| Export.IdInWindow | src/main/java/com/dxc/quartorariecsvgenerator/QuartorarieCsvGeneratorApplication.java:162 | An id that starts with the key of day x lies in [Key(a), Key(b)) exactly when a <= x < b. |
| Export.KeyInjective | src/main/java/com/dxc/quartorariecsvgenerator/QuartorarieCsvGeneratorApplication.java:232-235 | Two dates have the same yyyyMMdd key exactly when they are equal. |
| Export.DayIndependentOfOtherDays | src/main/java/com/dxc/quartorariecsvgenerator/QuartorarieCsvGeneratorApplication.java:159-162 | Adding or removing a document outside day d's window changes neither d's rows nor d's missing PODs. |
| Export.ProbeCoversDays | src/main/java/com/dxc/quartorariecsvgenerator/QuartorarieCsvGeneratorApplication.java:140-152 | Every document of a day in [start, end) is seen by the probe, so a run with an empty probe has no data to write. |
| Export.WindowsAtExit | src/main/java/com/dxc/quartorariecsvgenerator/QuartorarieCsvGeneratorApplication.java:157 | When the loop guard fails, the days walked through are all the windows up to the end date. |
| Export.BlocksLength | src/main/java/com/dxc/quartorariecsvgenerator/QuartorarieCsvGeneratorApplication.java:213 | The data rows number 96 per window. |
| Export.BlocksLayout | src/main/java/com/dxc/quartorariecsvgenerator/QuartorarieCsvGeneratorApplication.java:155-236 | Data row 96*i + k - 1 is row k of the i-th window, built from that day's documents alone. |
| Export.RunMissingGrows | src/main/java/com/dxc/quartorariecsvgenerator/QuartorarieCsvGeneratorApplication.java:222-223 | The missing-POD set after fewer days is a subset of the set after more days. |
| Export.DayGapsAreEmptyCells | src/main/java/com/dxc/quartorariecsvgenerator/QuartorarieCsvGeneratorApplication.java:221-223 | A POD is missing in a day exactly when some row of that day has an empty cell for it. |
| Export.RunMissingIsEmptyCells | src/main/java/com/dxc/quartorariecsvgenerator/QuartorarieCsvGeneratorApplication.java:221-223 | After the run, a POD is in the set exactly when some written cell for it is empty. |
| Export.MissingHasEmptyCell | src/main/java/com/dxc/quartorariecsvgenerator/QuartorarieCsvGeneratorApplication.java:221-223 | Every POD in the set has an empty cell in some day. |
| Export.EmptyCellIsMissing | src/main/java/com/dxc/quartorariecsvgenerator/QuartorarieCsvGeneratorApplication.java:221-223 | A POD with an empty cell in any written day is in the set. |

## Left out

- MongoDB work is not modelled: the index creation at lines 94-109 and the index drop at line 237. The connection setup in MongoConfig.java is not part of this model.
- The distinct-POD aggregation (lines 112-116) is the input `pods`. The model does not say that `pods` holds every POD of the collection, sorted. It also does not model a document with a null POD.
- Each aggregation's sort order is the order of `db`. The order among documents with equal (MEAS_YMDD_ID, POD, MEAS_TYPE) is whatever `db` lists.
- Range queries compare ids with Java's character order (`LexLe`), as the loop guard does. MongoDB's binary string comparison is taken to agree with this, which holds for the ASCII digits and '_' of the ids.
- The probe (lines 140-152) is modelled as "the range query is not empty". The `limit(1)`, the disk-use option and the unused `countQuery` make no difference to that.
- Argument parsing, file deletion and opening, the writer, and the lines after the loop (lines 53-93, 237-241) are not modelled. The `"\n"` after each line is left out: lines are stored without it.
- Start and end dates are given as valid dates, not as text. Lenient `SimpleDateFormat` parsing of malformed text is not modelled.
- Export.Run: requires start and end to be dates before 9999-12-31. The day after 9999-12-31 has a five-digit year, so its key no longer compares as a date. With such an end date the source loop would go past the end. The model also covers only years 1 to 9999, with proleptic Gregorian rules: no time zone, no DST, no Julian calendar before 1582. The default locale is taken to be Gregorian with ASCII digits, for `Calendar.getInstance` (line 133), `SimpleDateFormat` (lines 131-132) and `String.format` (lines 249-250).
- `System.exit(5)` is the `Status` result plus `ExitCode`. The model does not say what the buffered writer flushes before the process stops.
- Export.ExitCode: code 0 is not the process status. The source never calls exit(0). After the loop, line 237 drops the index; when `args[9]` was not "true", no index was created at line 94, and the drop may throw. The model stops at the end of the day loop.
- The four-argument form accepted at line 53 throws at `args[9]` (line 94), before the POD query. The core is reached only with ten arguments, and the model starts after that point.
- The `double` value is its opaque text (`Double.toString`). A value of -0.0 prints as "-0.0", is not a zero placeholder, and so counts as a real reading here as it does in the source.
- Logging and timing are left out. The duplicate warning survives only as the `anomalies` count of `Pivot.FoldDay`, which `Export.ExportDay` discards as the source does.
- The commented-out iterator variant (lines 175-201) is dead code and is not modelled.

## Findings

| source | as written | input that shows it | evidently intended | confidence | as-written member | corrected member |
|---|---|---|---|---|---|---|
| src/main/java/com/dxc/quartorariecsvgenerator/QuartorarieCsvGeneratorApplication.java:157 | The guard compares the yyyyMMdd text of maxDay with endDate, and the day after 9999-12-31 is formatted with the five-digit year "100000101", which sorts before "99991231". | endDate 99991231: the loop writes the rows of 9999-12-31, which is not before the end date, and goes on. | Stop once maxDay is past endDate, so that only days in [startDate, endDate) are written. | not executed | Calendar.GuardPassesAfterLastDay | Calendar.LoopGuard |
