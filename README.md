# Verified model of the FDF parser, the catalog editor and four small algorithms

This project is a Dafny model of the core of a collection of scripts.

**The FDF parser** (`ishares_eqy_fdf_parse.py`) turns a fund data file into pipe-delimited output rows. The file is a text export made of sections, each introduced by a marker line such as `Fund Level` or `Holdings: Securities`. The parser does the following:

- finds the section of the requested *grain*;
- reshapes it:
  - `transpose` for key/value sections;
  - `merge_holdings` for the two holdings tables;
  - `format_header` and comma-to-pipe for the tabular ones;
- rewrites `Mon D YYYY` dates as `YYYY-MM-DD`;
- checks that the Fund Level position date is unique;
- then either writes a fresh output file or appends to one that already has the same header. It appends only when none of the rows is already there.

**The catalog editor** (`upcat.py`) adds, updates, deletes and reads keyed rows of pipe-delimited catalog files.

**The four small algorithms:**

- a counting sort over an array (`countsort.c`);
- a recursive binary search (`binary_search.c`);
- a spiral traversal of a matrix (`matrix_spiral_copy.py`);
- an iterator that flattens a nested list through a queue (`flatten_nested_list_iterator.java`).

## How the model is built

Each part is modelled in the source's own form:

- Pure transformations are functions.
- Loops that update variables are methods with loop invariants. Each such method is proved equal to the function that specifies it.
- State that the source updates in place is a class. This covers the output file of `main`, the catalog files of `upcat`, and the queue of the iterator.
- The counting sort works on `array<int>`, in place.

In the FDF parser and the catalog editor every fatal exit (`bailout`, `exit(1)`, an uncaught `IndexError` or `TypeError`) is an `Err` value or a `Fail` outcome. Files are strings or sequences of lines. A file's string is its text after Python's text-mode newline translation, and `readlines()` is modelled exactly on that text. Python's `str.split`, `join`, `strip`, `lower` and `replace` are modelled over ASCII in `PyStr`. The `%b %d %Y` parsing of `datetime.strptime` and the `%Y-%m-%d` printing are modelled in `Dates`.

## Where the model follows the code rather than its comments

- The docstring of `format_date` (`ishares_eqy_fdf_parse.py:227-229`) shows `|1` fields disappearing. The code keeps every non-date field, as the repository's test expects. The model follows the code (`FormatDatePairs`, `FormatDateRowFields`).
- In `transpose`, `row.pop()` removes only the last field. A row with four or more fields therefore keeps all but its last one, and its date row takes field 2. The model does the same.
- `main` opens the output file for reading before deciding between writing and appending. A missing output file is therefore an error (`OutputMissing`), not a fresh write.
- `confirm_no_duplicates` (`ishares_eqy_fdf_parse.py:345`) drops the first three `|` fields of each existing line. When the input file's base name contains `|`, that drops the wrong fields. A rerun then appends every row a second time. `FdfMain.RerunIsRefused` and `FdfMain.EmittedOverlaps` therefore require a base name without `|`. This is a limit of the source, not of the model.
- The append at `ishares_eqy_fdf_parse.py:515-520` writes the first data line straight after whatever the file ends with. If the existing file's last line has no newline, the first data line is glued onto it. The glued line, stripped of three fields, no longer equals that row, so a rerun appends the row a second time. `FdfMain.EmittedLines`, `FdfMain.EmittedOverlaps` and `FdfMain.RerunIsRefused` therefore require an output file that is empty or ends with a newline. This too is a limit of the source, not of the model.
- In `update`:
  - the `.out` file is emptied when it is opened, before the key is checked;
  - the header line is written before the column arguments are validated;
  - only the first data line is lowercased;
  - only the first matching row is updated, because the `zip` is consumed once;
  - all four are modelled as written.

## Model

| member | source | states |
|---|---|---|
| PyStr.JoinSplit | fdf-proj/sandbox/ishares_eqy_fdf_parse.py:237-245 | joining the fields of `split(sep)` with `sep` gives the string back |
| PyStr.SplitJoin | upcat/upcat.py:167-177 | splitting a join of separator-free fields gives the fields back |
| PyStr.SplitLength | fdf-proj/sandbox/ishares_eqy_fdf_parse.py:316 | `split(sep)` has one more field than the string has separators (two commas mean three fields) |
| PyStr.StripIsTrim | fdf-proj/sandbox/ishares_eqy_fdf_parse.py:277 | `strip()` returns a middle slice with no whitespace at either end; everything cut off is whitespace |
| PyStr.StripIdempotent | fdf-proj/sandbox/ishares_eqy_fdf_parse.py:277 | stripping twice is stripping once |
| PyStr.LStripSpec | fdf-proj/sandbox/ishares_eqy_fdf_parse.py:240 | `lstrip()` keeps a suffix, drops only whitespace and stops at the first non-space |
| PyStr.RStripSpec | upcat/upcat.py:82 | `rstrip()` keeps a prefix, drops only whitespace and stops at the last non-space |
| PyStr.ReplaceAllAbsent | fdf-proj/sandbox/ishares_eqy_fdf_parse.py:156 | `replace` leaves a string without the pattern unchanged |
| PyStr.ReadLinesSound | fdf-proj/sandbox/ishares_eqy_fdf_parse.py:343 | `readlines()` splits the text into non-empty pieces that concatenate back to it; all but the last end with their only newline |
| PyStr.ReadLinesConcat | upcat/upcat.py:234 | reading back whole lines that were written gives exactly those lines |
| PyStr.ReadLinesAppend | fdf-proj/sandbox/ishares_eqy_fdf_parse.py:515-520 | text appended after a newline-terminated file reads back as the old lines followed by the new ones |
| Dates.MonthNumber | fdf-proj/sandbox/ishares_eqy_fdf_parse.py:240 | `%b` matches a month abbreviation case-insensitively, giving its number, and fails only when no abbreviation matches |
| Dates.ParseDate | fdf-proj/sandbox/ishares_eqy_fdf_parse.py:240 | every date `strptime(…, '%b %d %Y')` accepts exists in the calendar (year 1-9999, day within its month) |
| Dates.ParseRender | fdf-proj/sandbox/ishares_eqy_fdf_parse.py:240 | every valid date, written `Mon D YYYY`, parses back to itself |
| Dates.IsoFields | fdf-proj/sandbox/ishares_eqy_fdf_parse.py:241 | `strftime('%Y-%m-%d')` spells the year, month and day as 4, 2 and 2 digits with the date's values |
| Dates.ParseIsoNone | fdf-proj/sandbox/ishares_eqy_fdf_parse.py:238-244 | an ISO date is not itself a `%b %d %Y` date |
| Dates.ExampleOct7 | fdf-proj/sandbox/tests/test_ishares_eqy_fdf_parse.py:17-21 | `Oct 7 1991` parses as 7 October 1991 and is written `1991-10-07` |
| Dates.ExampleJan24 | fdf-proj/sandbox/tests/test_ishares_eqy_fdf_parse.py:17-21 | `Jan 24 2019` parses as 24 January 2019 and is written `2019-01-24` |
| FdfSections.FindFrom | fdf-proj/sandbox/ishares_eqy_fdf_parse.py:98-114 | the scan stops at the first matching index at or after its start, or reports that none matches |
| FdfSections.ParseData | fdf-proj/sandbox/ishares_eqy_fdf_parse.py:74-121 | the two scanning loops compute exactly the section function, errors included |
| FdfSections.SectionBounds | fdf-proj/sandbox/ishares_eqy_fdf_parse.py:98-121 | a found section is `lines[s+1:e]`: `s` is the first stripped line equal to the start marker, `e` the first at or after `s` equal to the end marker |
| FdfSections.SectionStopsAtEnd | fdf-proj/sandbox/ishares_eqy_fdf_parse.py:109-114 | no line of a section strips to the end marker |
| FdfSections.ExpandInPlace | fdf-proj/sandbox/ishares_eqy_fdf_parse.py:143-147 | the loop that pops and inserts while enumerating yields the logical rows: every row of more than two fields becomes its first fields plus a `<f0>_date, f2` row |
| FdfSections.Width | fdf-proj/sandbox/ishares_eqy_fdf_parse.py:148 | `zip_longest` makes as many columns as the longest row: no row is longer and one row (if any) is that long |
| FdfSections.Transpose | fdf-proj/sandbox/ishares_eqy_fdf_parse.py:124-159 | `transpose` returns exactly the transposed table: row `i` is field `i` of every logical row, padded with empties and with `None` erased, pipe-joined |
| FdfSections.TransposedFields | fdf-proj/sandbox/ishares_eqy_fdf_parse.py:148-157 | for rows without pipes, output row `i` splits back on `|` into the `i`-th cells of the logical rows |
| FdfSections.FormatTargets | fdf-proj/sandbox/ishares_eqy_fdf_parse.py:237-244 | the inner loop rewrites each field that parses as a date to ISO form and leaves the others; the two counters count dates and non-dates |
| FdfSections.FormatDate | fdf-proj/sandbox/ishares_eqy_fdf_parse.py:216-250 | `format_date` returns the field-by-field rewritten rows, and its counters total the date fields and all fields |
| FdfSections.FormatDateRowFields | fdf-proj/sandbox/ishares_eqy_fdf_parse.py:236-245 | each output row has the same number of pipe fields as its input row, each rewritten on its own |
| FdfSections.FormatFieldIdempotent | fdf-proj/sandbox/ishares_eqy_fdf_parse.py:238-244 | rewriting a rewritten field changes nothing |
| FdfSections.FormatDateIdempotent | fdf-proj/sandbox/ishares_eqy_fdf_parse.py:216-250 | `format_date` applied twice gives the same rows as once |
| FdfSections.CanonIsCanonical | fdf-proj/sandbox/ishares_eqy_fdf_parse.py:277 | a cleaned-up header name has no capital, no space and no whitespace at either end |
| FdfSections.CanonIdempotent | fdf-proj/sandbox/ishares_eqy_fdf_parse.py:277 | cleaning up a cleaned-up name changes nothing |
| FdfSections.FormatHeaderSpec | fdf-proj/sandbox/ishares_eqy_fdf_parse.py:253-282 | `format_header` keeps the row count and every row after the first; the first row's pipe fields are the cleaned-up comma fields, each canonical |
| FdfMerge.Frame | fdf-proj/sandbox/ishares_eqy_fdf_parse.py:194-195 | a `DataFrame` is built exactly when no row is wider than the header and some row is as wide as it (or there are no rows); shorter rows are padded with empties |
| FdfMerge.NewColumns | fdf-proj/sandbox/ishares_eqy_fdf_parse.py:198 | the columns `concat` adds are exactly the synthetics columns absent from the securities header, without repeats |
| FdfMerge.MergeErrors | fdf-proj/sandbox/ishares_eqy_fdf_parse.py:162-206 | the merge fails exactly when a section is missing, a table's width differs from its header's, or differing headers repeat a column name |
| FdfMerge.StackShape | fdf-proj/sandbox/ishares_eqy_fdf_parse.py:198-199 | the stacked table has a header, one row per securities row and one per synthetics row, all as wide as the header; the header is the securities header then the new columns, and holds exactly the names of both |
| FdfMerge.StackSecurities | fdf-proj/sandbox/ishares_eqy_fdf_parse.py:198 | each securities row is kept as it was, with empties in the new columns |
| FdfMerge.StackSynthetics | fdf-proj/sandbox/ishares_eqy_fdf_parse.py:198 | each synthetics value lands in the column bearing its header name |
| FdfMerge.StackedSyntheticsRow | fdf-proj/sandbox/ishares_eqy_fdf_parse.py:198 | with differing headers, each synthetics row is realigned to the union header |
| FdfMerge.StackSyntheticsMissing | fdf-proj/sandbox/ishares_eqy_fdf_parse.py:198 | a synthetics row is empty in every column its own header lacks |
| FdfValidate.DateField | fdf-proj/sandbox/ishares_eqy_fdf_parse.py:316 | a row contributes a date only when it has exactly two commas and a non-empty third field, which then has no comma |
| FdfValidate.CandidatesSpec | fdf-proj/sandbox/ishares_eqy_fdf_parse.py:315-317 | the collected values are exactly the date fields of the section's rows |
| FdfValidate.DateSetStep | fdf-proj/sandbox/ishares_eqy_fdf_parse.py:315-317 | each loop step adds the row's date field, if any, to the set |
| FdfValidate.SingleDate | fdf-proj/sandbox/ishares_eqy_fdf_parse.py:318 | the set has exactly one element exactly when there is a date field and all date fields are equal |
| FdfValidate.ConfirmValidDate | fdf-proj/sandbox/ishares_eqy_fdf_parse.py:307-325 | the set-building loop computes exactly the confirmed-date function, errors included |
| FdfValidate.ConfirmedDateAgrees | fdf-proj/sandbox/ishares_eqy_fdf_parse.py:318-320 | a confirmed date is the ISO form of the one valid date that every date field of the section spells |
| FdfValidate.DifferentDatesFail | fdf-proj/sandbox/ishares_eqy_fdf_parse.py:318-325 | two different date fields make the check fail |
| FdfValidate.NoDateFails | fdf-proj/sandbox/ishares_eqy_fdf_parse.py:318-325 | a section without date fields makes the check fail |
| FdfValidate.Appended | fdf-proj/sandbox/ishares_eqy_fdf_parse.py:349 | the rows compared are all rows but the header |
| FdfValidate.ConfirmNoDuplicates | fdf-proj/sandbox/ishares_eqy_fdf_parse.py:328-362 | the check passes exactly when no existing line, without its first three pipe fields, equals a new row plus newline, and otherwise fails with the duplicate error |
| FdfMain.GrainNames | fdf-proj/sandbox/ishares_eqy_fdf_parse.py:30-39 | every grain is selected by its own name and by no other |
| FdfMain.Markers | fdf-proj/sandbox/ishares_eqy_fdf_parse.py:30-39 | holdings has two section markers and every other grain one |
| FdfMain.ConfirmGrainIsValid | fdf-proj/sandbox/ishares_eqy_fdf_parse.py:297-304 | an accepted grain is the one whose name was given; a rejected name is the name of no grain |
| FdfMain.GrainNamesTotal | fdf-proj/sandbox/ishares_eqy_fdf_parse.py:297-304 | a name the lookup does not know is the name of no grain |
| FdfMain.Dispatch | fdf-proj/sandbox/ishares_eqy_fdf_parse.py:460-491 | the grain dispatch computes exactly the per-grain transformation |
| FdfMain.HoldingsRows | fdf-proj/sandbox/ishares_eqy_fdf_parse.py:461-467 | the holdings pipeline, when it succeeds, yields at least a header row |
| FdfMain.FxRows | fdf-proj/sandbox/ishares_eqy_fdf_parse.py:470-474 | the FX pipeline replaces the section's first row by the fixed header `currency,spot_rate` |
| FdfMain.HeaderedRows | fdf-proj/sandbox/ishares_eqy_fdf_parse.py:477-479 | the forwards pipeline, when it succeeds, yields at least a header row |
| FdfMain.RunPiped | fdf-proj/sandbox/ishares_eqy_fdf_parse.py:481-484 | the spreads/allocations comprehension computes exactly the piped-rows function |
| FdfMain.RunTransposed | fdf-proj/sandbox/ishares_eqy_fdf_parse.py:487-491 | the fund/basket/swaps pipeline computes exactly the transposed-rows function |
| FdfMain.MergeNonEmpty | fdf-proj/sandbox/ishares_eqy_fdf_parse.py:467 | a successful merge has a first row for the header check to use |
| FdfMain.SpreadsHaveNoCommas | fdf-proj/sandbox/ishares_eqy_fdf_parse.py:481-484 | spreads and allocations rows contain no comma after the pipeline |
| FdfMain.TransformTransposed | fdf-proj/sandbox/ishares_eqy_fdf_parse.py:487-491 | for fund, basket and swaps, a missing section is the error; otherwise the run fails exactly when the transposed, date-formatted section is empty, and on success every row but the first is that section and the count is kept |
| FdfMain.OutputFile.constructor | fdf-proj/sandbox/ishares_eqy_fdf_parse.py:501 | the output file starts with the given presence and content |
| FdfMain.FirstLine | fdf-proj/sandbox/ishares_eqy_fdf_parse.py:506 | `readline()` returns a prefix of the file that is either all of it or one whole line |
| FdfMain.HeaderLineIsLine | fdf-proj/sandbox/ishares_eqy_fdf_parse.py:502-503 | the header line is one whole line when the rows' header has no newline |
| FdfMain.DataLines | fdf-proj/sandbox/ishares_eqy_fdf_parse.py:516-520 | one data line is written per row after the header |
| FdfMain.DataLinesAreLines | fdf-proj/sandbox/ishares_eqy_fdf_parse.py:517-520 | each data line is one whole line |
| FdfMain.Basename | fdf-proj/sandbox/ishares_eqy_fdf_parse.py:518 | `os.path.split(path)[-1]` is exactly the text after the last slash: a slash-free suffix that is the whole path or follows a slash |
| FdfMain.WriteRows | fdf-proj/sandbox/ishares_eqy_fdf_parse.py:529-536 | the write loop appends exactly the data lines, in order |
| FdfMain.Emit | fdf-proj/sandbox/ishares_eqy_fdf_parse.py:500-536 | on an existing file: append after the duplicate check when the first line is the header, else rewrite with the header first; on a failed check nothing changes; a missing file is an error |
| FdfMain.RunMain | fdf-proj/sandbox/ishares_eqy_fdf_parse.py:447-536 | `main` changes the file exactly as the main-result function says, and leaves it untouched on every failure |
| FdfMain.StripProvenanceOf | fdf-proj/sandbox/ishares_eqy_fdf_parse.py:343-346 | dropping the first three pipe fields of a written data line gives back the row plus newline |
| FdfMain.FirstLineOf | fdf-proj/sandbox/ishares_eqy_fdf_parse.py:506 | `readline()` of text that starts with a whole line is that line |
| FdfMain.EmittedLines | fdf-proj/sandbox/ishares_eqy_fdf_parse.py:510-536 | on an output file that is empty or ends with a newline, the new file read back is the old lines (append) or the header line (write), followed by the data lines |
| FdfMain.EmittedStartsWithHeader | fdf-proj/sandbox/ishares_eqy_fdf_parse.py:529-530 | after a successful output step the file's first line is the header line |
| FdfMain.EmittedRefused | fdf-proj/sandbox/ishares_eqy_fdf_parse.py:510-514 | with the header in place, an overlap makes the step fail with the duplicate error |
| FdfMain.EmittedOverlaps | fdf-proj/sandbox/ishares_eqy_fdf_parse.py:341-354 | on an output file that is empty or ends with a newline, with a source name free of `|`, a file just written for some rows overlaps those rows |
| FdfMain.RerunIsRefused | fdf-proj/sandbox/ishares_eqy_fdf_parse.py:500-536 | on an output file that is empty or ends with a newline, with a source name and rows free of `|` and newlines, running the output step twice with the same rows fails the second time: the rows are not appended twice |
| FdfMain.Overlap | fdf-proj/sandbox/ishares_eqy_fdf_parse.py:352-354 | one existing line equal to a new row after stripping is an overlap |
| Upcat.CatalogFile.constructor | upcat/upcat.py:13-18 | a catalog file has a name and lines |
| Upcat.Add | upcat/upcat.py:21-51 | `add` changes the file exactly as the added function says, and leaves it unchanged on an exit |
| Upcat.NewRowFields | upcat/upcat.py:34-37 | the new row is one line whose pipe fields are the key and `width - 1` empties; its key is the given key |
| Upcat.AddAppendsRow | upcat/upcat.py:34-39 | on a newline-terminated file, `add` appends exactly that row and keeps every existing line |
| Upcat.AddKeys | upcat/upcat.py:26-39 | after `add`, the keys are the old keys followed by the new one |
| Upcat.KeyAbsent | upcat/upcat.py:230-235 | a key not among `get_keys` (and not the header's first field) is the first field of no line |
| Upcat.Delete | upcat/upcat.py:195-227 | `delete` changes the file exactly as the deleted function says, and leaves it unchanged on an exit |
| Upcat.KeptMembers | upcat/upcat.py:212-215 | the lines kept are exactly the lines whose key differs |
| Upcat.KeptAppend | upcat/upcat.py:212-215 | the filter works line by line: filtering a concatenation concatenates the filtered parts |
| Upcat.KeptNone | upcat/upcat.py:212-215 | with no line holding the key, every line is kept in order |
| Upcat.DeleteRemovesKey | upcat/upcat.py:200-215 | after `delete`, no line has the key |
| Upcat.AddThenDelete | upcat/upcat.py:34-39 | adding a new key and then deleting it restores the file |
| Upcat.BuildHeaderMap | upcat/upcat.py:138-140 | the dictionary loop computes the header map |
| Upcat.HeaderMapSpec | upcat/upcat.py:138-140 | the map's keys are the lowercased headers; each maps to the last position holding it |
| Upcat.HeaderMapInjective | upcat/upcat.py:138-140 | different column names map to different positions |
| Upcat.DistinctCard | upcat/upcat.py:149 | `len(cols) == len(set(cols))` exactly when no column repeats |
| Upcat.FirstInvalid | upcat/upcat.py:152-158 | an invalid column is reported exactly when one is missing from the header, and the one reported is such a column |
| Upcat.CheckColumns | upcat/upcat.py:152-158 | the validation loop finds the first invalid column |
| Upcat.Validated | upcat/upcat.py:143-160 | odd-length arguments fail with the mismatch error and only they do; valid ones pair each lowercased column, present in the header and distinct, with its value |
| Upcat.AssignPairs | upcat/upcat.py:169-174 | the assignment loop computes the assign function |
| Upcat.AssignSpec | upcat/upcat.py:169-174 | assigning succeeds exactly when every named position exists; then each named column holds its value and the other fields are kept |
| Upcat.AssignFails | upcat/upcat.py:169-174 | assignment fails only on a row too short for a column |
| Upcat.AssignKeeps | upcat/upcat.py:169-177 | values without pipes keep the row free of pipes |
| Upcat.RewriteRow | upcat/upcat.py:167-179 | one loop step writes the row out and says whether the pairs are still pending |
| Upcat.RewriteRows | upcat/upcat.py:165-180 | the `while line` loop appends exactly the rewritten rows and ends as the rewrite function says |
| Upcat.RewriteRowsSpec | upcat/upcat.py:165-180 | a completed rewrite writes one line per row, and only a matching row with no earlier match is updated |
| Upcat.RewriteFails | upcat/upcat.py:165-180 | the row loop fails only on a row too short for a column |
| Upcat.LaterMatchCopied | upcat/upcat.py:168-177 | a matching row after the first is written back unchanged |
| Upcat.FirstMatchFields | upcat/upcat.py:168-177 | the first matching row is written with the assigned fields and its newline restored |
| Upcat.Update | upcat/upcat.py:116-192 | `update` leaves `.out` and returns exactly as the update function says |
| Upcat.UpdateChecksFirst | upcat/upcat.py:121-160 | on a primary-key file `.out` is always opened; its first line, once the key is known, is the header unchanged; every exit except a short row comes before any data row |
| Upcat.ReadRecord | upcat/upcat.py:81-103 | the `read` loop computes the record function: the missing-key exit, the header-to-value map, and the `TypeError` of printing a header left `None` |
| Upcat.OverlayRow | upcat/upcat.py:89-90 | the inner `for` loop computes the overlay |
| Upcat.OverlayValues | upcat/upcat.py:89-90 | the overlay adds exactly the headers as keys, keeps other entries, and gives each header its row value at its last position |
| Upcat.RecordKeys | upcat/upcat.py:82-93 | the map's keys are exactly the headers (`dict.fromkeys`) |
| Upcat.RecordAppend | upcat/upcat.py:85-93 | a matching row of the header's arity sets each header to its value; any other row leaves the map unchanged |
| Upcat.RecordNoMatch | upcat/upcat.py:83-93 | without a line that has the key and the header's field count, the map stays as `dict.fromkeys` made it |
| Upcat.RecordAllSet | upcat/upcat.py:85-93 | once such a line has been read, every header has a value |
| Upcat.RecordSetExactly | upcat/upcat.py:81-96 | for a key the file holds, `read` prints its record exactly when some line with that key has the header's field count; otherwise printing a `None` value crashes |
| CountSort.BelowNext | countsort.c:44-59 | the bucket of `v` is as wide as the number of occurrences of `v` |
| CountSort.BelowEnds | countsort.c:55-59 | the first bucket starts at 0 and the last ends at `n` |
| CountSort.Histogram | countsort.c:19-33 | after the counting loop, `countArr[v]` is the number of occurrences of `v` |
| CountSort.PrefixSums | countsort.c:44-51 | after the prefix loop, `countArr[m]` is the number of elements `<= m` |
| CountSort.ShiftRight | countsort.c:55-59 | after the shift, `countArr[v]` is the number of elements `< v` |
| CountSort.PlaceStep | countsort.c:72-77 | each placement writes inside `[0, n)`, in the element's bucket, on a slot not yet written |
| CountSort.Place | countsort.c:69-77 | the placement loop fills every bucket with its value |
| CountSort.BucketsSorted | countsort.c:72-77 | an array filled bucket by bucket is ascending |
| CountSort.BucketsPerm | countsort.c:72-77 | an array filled bucket by bucket is a permutation of the input |
| CountSort.CopyBack | countsort.c:87-90 | the copy loop sets `values[0..n)` to `newArr` and nothing else |
| CountSort.Sort | countsort.c:7-99 | `values[0..n)` ends sorted and a permutation of its old contents; the rest of the array is untouched |
| BinarySearch.Mid | binary_search.c:48 | the middle index lies in `[low, high]` |
| BinarySearch.NarrowKeepsValue | binary_search.c:57-67 | on a sorted array the half the recursion keeps still holds the value |
| BinarySearch.FoundAt | binary_search.c:46-67 | the recursion stops at an index in `[low, high]` that holds the value |
| BinarySearch.BinarySearch | binary_search.c:46-67 | given a sorted array holding the value in `[low, high]`, `binary_search` terminates in bounds and answers true |
| BinarySearch.Search | binary_search.c:29-43 | `search` answers true for a value in `values[0..n)`, and true means the value is there |
| BinarySearch.DemoFindsEight | binary_search.c:11-17 | 8 is found among 1..9 |
| BinarySearch.ProbeOnce | binary_search.c:46-67 | one call as written, on any bounds: a hit reads the value at C's midpoint inside the array; a miss keeps one of the two bounds |
| BinarySearch.ProbeInInterval | binary_search.c:46-67 | inside a non-empty interval the call reads in bounds, C's midpoint is `Mid`, and a miss narrows to the side `BinarySearch` takes |
| BinarySearch.AbsentNeverHit | binary_search.c:46-67 | a value absent from `values[0..n)` is never hit, so no call answers for it |
| BinarySearch.PastTheEndIsFixed | binary_search.c:48-66 | with `low == high + 1` and the value above `values[high]`, the next call has the same bounds: the recursion never ends |
| BinarySearch.FourInOneTwoThree | binary_search.c:46-67 | searching 4 in `{1, 2, 3}` reaches bounds `(3, 2)` and stays there |
| BinarySearch.EmptyReadsOutside | binary_search.c:29-33 | `search` on an empty array reads `values[0]`, outside the array |
| MatrixSpiral.RingCount | matrix_spiral_copy.py:14-38 | one pass visits each cell of the current rectangle's border once and nothing else |
| MatrixSpiral.SpiralCount | matrix_spiral_copy.py:12-38 | the spiral visits every cell of the rectangle exactly once and no other position |
| MatrixSpiral.SpiralLength | matrix_spiral_copy.py:12-38 | the spiral has as many positions as the rectangle has cells |
| MatrixSpiral.EachCellOnce | matrix_spiral_copy.py:1-40 | the traversal of a rectangular matrix visits each cell exactly once, all in bounds |
| MatrixSpiral.SpiralOrderLength | matrix_spiral_copy.py:1-40 | the result has `numRows * numCols` entries |
| MatrixSpiral.FirstRowFirst | matrix_spiral_copy.py:14-16 | the first `numCols` positions are row 0, left to right |
| MatrixSpiral.CopyRowRight | matrix_spiral_copy.py:15-16 | copies a row segment left to right |
| MatrixSpiral.CopyColumnDown | matrix_spiral_copy.py:21-22 | copies a column segment top to bottom |
| MatrixSpiral.CopyRowLeft | matrix_spiral_copy.py:27-29 | copies a row segment right to left |
| MatrixSpiral.CopyColumnUp | matrix_spiral_copy.py:34-36 | copies a column segment bottom to top |
| MatrixSpiral.CopyPass | matrix_spiral_copy.py:14-38 | one pass of the loop copies the rectangle's border and shrinks the bounds to the inner rectangle |
| MatrixSpiral.SpiralCopy | matrix_spiral_copy.py:1-40 | `spiral_copy` returns the entries in spiral order: `numRows * numCols` of them, row 0 first |
| MatrixSpiral.ExamplePositions | matrix_spiral_copy.py:42-49 | the 4×5 spiral visits the positions of the example in order |
| MatrixSpiral.Example | matrix_spiral_copy.py:42-49 | the 4×5 example yields `1, 2, 3, 4, 5, 10, 15, 20, 19, 18, 17, 16, 11, 6, 7, 8, 9, 14, 13, 12` |
| NestedIterator.FlattenConcat | flatten_nested_list_iterator.java:15-37 | flattening a list is flattening its parts in order |
| NestedIterator.FlattenNested | flatten_nested_list_iterator.java:27-37 | a nested list, empty or not, contributes exactly its integers in place |
| NestedIterator.FlattenIdempotent | flatten_nested_list_iterator.java:27-37 | flattening a flat list of integers gives it back |
| NestedIterator.NestedIterator.constructor | flatten_nested_list_iterator.java:10-13 | after construction the list is stored and the queue holds its integers depth-first, left to right |
| NestedIterator.NestedIterator.InitiateQueue | flatten_nested_list_iterator.java:15-25 | the top-level loop appends the integers of every element in order |
| NestedIterator.NestedIterator.PopulateQueue | flatten_nested_list_iterator.java:27-37 | the recursive loop appends the integers of a nested list in order |
| NestedIterator.NestedIterator.Next | flatten_nested_list_iterator.java:39-42 | `next()` returns the front of the queue and removes it |
| NestedIterator.NestedIterator.HasNext | flatten_nested_list_iterator.java:44-47 | `hasNext()` is true exactly when the queue is non-empty |
| NestedIterator.Drain | flatten_nested_list_iterator.java:39-47 | calling `next()` while `hasNext()` yields the queue, in order, and empties it |
| NestedIterator.IterateAll | flatten_nested_list_iterator.java:7-47 | a new iterator, drained, yields exactly the flattened list |
| FdfExamples.ParseDataTest | fdf-proj/sandbox/tests/test_ishares_eqy_fdf_parse.py:5-9 | the `A Lvl` section of the test's lines is `A1, A2` |
| FdfExamples.TransposeTwoByTwo | fdf-proj/sandbox/ishares_eqy_fdf_parse.py:124-159 | two two-field rows of plain text transpose into two pipe-joined rows |
| FdfExamples.TransposeTest | fdf-proj/sandbox/tests/test_ishares_eqy_fdf_parse.py:12-14 | the test's two rows transpose to `Fund Ticker|Fund ISIN` and `IOGP|IE00B6R51Z18` |
| FdfExamples.FormatDatePairs | fdf-proj/sandbox/tests/test_ishares_eqy_fdf_parse.py:17-21 | rows of one field, and of two pipe fields whose second is not a date, are rewritten field by field with the second field kept |
| FdfExamples.FormatFieldOne | fdf-proj/sandbox/tests/test_ishares_eqy_fdf_parse.py:19-21 | the field `1` is not a date and is kept |
| FdfExamples.FormatDateTest | fdf-proj/sandbox/tests/test_ishares_eqy_fdf_parse.py:17-21 | the test's dates are rewritten to `2019-01-24` and `1991-10-07` |
| FdfExamples.FormatHeaderThree | fdf-proj/sandbox/ishares_eqy_fdf_parse.py:273-282 | a three-name header becomes its cleaned-up names pipe-joined; the other rows are kept |
| FdfExamples.FormatHeaderTest | fdf-proj/sandbox/tests/test_ishares_eqy_fdf_parse.py:24-25 | `    a, b c, D` becomes `a|b_c|d` and `1,2,3` is kept |
| FdfExamples.MergeShifted | fdf-proj/sandbox/ishares_eqy_fdf_parse.py:176-205 | headers `a,b,c` and `b,c,d` merge into `a|b|c|d` with an empty last field in the securities row and an empty first field in the synthetics row |
| FdfExamples.MergeHoldingsTest | fdf-proj/sandbox/tests/test_ishares_eqy_fdf_parse.py:28-31 | the test's two tables merge into `a|b|c|d`, `1|2|3|`, `|4|5|6` |

## Left out

- Command-line parsing, logging, `bailout`'s message and exit status, and the timing with `time()` are I/O. Fatal exits are error values.
- `confirm_file_exists` checks a path on disk and is left out. `confirm_valid_isin` runs an SQL query in a subprocess. Its answer is the `isinFound` parameter of `MainResult`/`RunMain`.
- Opening and reading files is not modelled. The input file is its text. The output file is an `OutputFile` holding a presence flag and a string. The catalog files are sequences of `readlines()` lines.
- Opening the input with `encoding='utf-8-sig'` strips a byte-order mark. The model has no BOM.
- Python text mode turns `\r\n` and `\r` into `\n` before `read`, `readline` or `readlines` see the text. The model starts from the translated text. `PyStr.ReadLines`, `FdfMain.FirstLine` and the line splits therefore break after `\n` only, and files with other line endings are not modelled as bytes on disk.
- Characters are ASCII only:
  - `isspace`, `lower` and digit recognition are modelled on ASCII;
  - non-ASCII whitespace, case mappings and digits are not;
  - `strptime`'s locale is fixed to English month abbreviations.
- `Dates.Iso`: writes the year with four digits. The C library's `strftime` on some platforms does not pad years below 1000. This only matters for years 1-999.
- pandas: `merge_holdings` is modelled as follows (`FdfMerge.Stack`):
  - the union header is the securities header followed by the new synthetics columns;
  - a repeated column name in differing headers is an error.
  
  Both depend on the pandas version. Older versions sort the union, and duplicate labels behave differently.
- `read` without a key prints every line, and with a key prints the map. Both printings are left out. So are the search for similar keys on the missing-key exit, and the file-name dispatch of `read` (composite files do nothing, unknown ones exit). `Upcat.Record` models a primary-key file: the header-to-value map, the missing-key error, or the `TypeError` that `f"{value:25}"` raises on a header still `None` (`ValueUnset`). This happens when no line with the key has the header's field count (`Upcat.RecordSetExactly`). The values printed before the crash are not modelled.
- Upcat files: the composite-key file makes `add`, `update` and `delete` do nothing. This is modelled as no change. Its TODO branches have no other behaviour.
- A catalog file with a single column is modelled as written. Its keys keep their newline, so `add`'s duplicate check never matches them.
- The "are you sure" prompt of `delete` is the `confirmed` parameter.
- The `printf` tracing of `countsort.c` is left out.
- `BinarySearch.Search`: requires the value to occur in `values[0..n)`. This is because `binary_search` (binary_search.c:46-67) has no `low > high` case and no `return false`. For an absent value the recursion runs forever: `BinarySearch.PastTheEndIsFixed` and `BinarySearch.FourInOneTwoThree` show the bounds stop changing. With `n == 0` it reads `values[0]` (`BinarySearch.EmptyReadsOutside`). So the `false` result of `search` and the "Didn't find needle" branch of `main` (binary_search.c:20-24) can never be reached. `Search` and `BinarySearch` are stated only for the inputs on which the C code terminates.
- `MatrixSpiral.SpiralCopy`: requires a rectangular matrix with at least one row. `spiral_copy([])` raises `IndexError` at `inputMatrix[0]` (matrix_spiral_copy.py:4). Ragged rows either raise `IndexError` or are read only up to the first row's width. Neither case is modelled.
- C `int` overflow is not modelled:
  - `low + high` in `binary_search` is treated as unbounded. It fits for arrays below 2^30 elements.
  - The counts in `countsort.c` are also unbounded.
- `countsort.c` declares `countArr` and `newArr` on the stack. The model allocates them as arrays.
- The Java queue is a `seq<int>` of the integers it holds.
- `NestedIterator.NestedIterator.Next`: requires a non-empty queue. On an empty queue Java's `poll()` returns null, and `getInteger()` then throws.
- `FdfExamples.FormatDateTest`: states the rewriting of the two dates of the repository's test field by field. The whole-list results for these literal rows follow from `FdfExamples.FormatDatePairs`. They are not stated on the literal rows themselves.
- `crack.c`, `txt_to_csv.py` and the logging demos are not part of this model.
